/** `export_for_d3js`, in d3_export.py and in its copy in webapp.py: the
    projection of the graph, the partition and the community table into one
    document of node, link and community records with metadata and summary
    counts. The two copies differ only in the optional link attributes and in
    how the metadata tier counts are computed. */
module Export {
  import opened Common
  import opened BipartiteGraph
  import opened Communities
  import opened RiskScoring
  import opened Tiering

  datatype ExportCopy = D3Module | WebappModule

  // ---------------------------------------------------------------- node -> community

  /** `node_to_community.get(node, -1)`: the dict is filled community by
      community, so a node listed twice keeps the last index. */
  function NodeToCommunity(p: Partition, n: Node): (c: int)
    ensures -1 <= c < |p|
    ensures c == -1 <==> forall i :: 0 <= i < |p| ==> n !in p[i]
    ensures c >= 0 ==> n in p[c] && forall j :: c < j < |p| ==> n !in p[j]
  {
    if |p| == 0 then -1
    else if n in p[|p| - 1] then |p| - 1
    else NodeToCommunity(p[..|p| - 1], n)
  }

  function Lookup(m: map<Node, nat>, n: Node): int
  {
    if n in m then m[n] else -1
  }

  /** The dict-filling loop itself. */
  method CommunityMap(p: Partition) returns (m: map<Node, nat>)
    ensures forall n :: n in m <==> exists k :: 0 <= k < |p| && n in p[k]
    ensures forall n :: Lookup(m, n) == NodeToCommunity(p, n)
  {
    m := map[];
    var i := 0;
    while i < |p|
      invariant 0 <= i <= |p|
      invariant forall n :: n in m <==> exists k :: 0 <= k < i && n in p[k]
      invariant forall n :: Lookup(m, n) == NodeToCommunity(p[..i], n)
    {
      var j := 0;
      while j < |p[i]|
        invariant 0 <= j <= |p[i]|
        invariant forall n :: n in m <==> (exists k :: 0 <= k < i && n in p[k]) || n in p[i][..j]
        invariant forall n :: Lookup(m, n) == if n in p[i][..j] then i else NodeToCommunity(p[..i], n)
      {
        TakeSnoc(p[i], j);
        m := m[p[i][j] := i];
        j := j + 1;
      }
      assert p[i][..j] == p[i];
      assert p[..i + 1][..i] == p[..i];
      i := i + 1;
    }
    assert p[..i] == p;
  }

  /** Index of the first table row with the given id (`comm_data.iloc[0]`). */
  function RowFor(rows: seq<CommunityRow>, id: int): (r: Option<nat>)
    ensures r.Some? ==>
      && r.value < |rows| && rows[r.value].communityId == id
      && forall j :: 0 <= j < r.value ==> rows[j].communityId != id
    ensures r.None? <==> forall j :: 0 <= j < |rows| ==> rows[j].communityId != id
  {
    if |rows| == 0 then None
    else if rows[0].communityId == id then Some(0)
    else
      match RowFor(rows[1..], id)
      case None => None
      case Some(k) => Some(k + 1)
  }

  /** A node's `risk_level`: the level of its community's row, or Medium for
      an unassigned node or a community without a row. */
  function NodeRiskLevel(p: Partition, rows: seq<CommunityRow>, t: Thresholds, n: Node): Level
  {
    var c := NodeToCommunity(p, n);
    if c < 0 then Medium
    else
      match RowFor(rows, c)
      case None => Medium
      case Some(k) => TierOf(rows[k].riskScore, t.low, t.high)
  }

  // ---------------------------------------------------------------- records

  datatype NodeKind = PatientKind | SiteKind

  datatype NodeAttrs =
    | PatientAttrs(dnaRate: real, ageGroup: AgeGroup, age: Option<real>, appointments: nat,
                   dnaCount: nat, uniqueSites: nat, postcode: Text, riskCategory: Level)
    | SiteAttrs(siteDnaRate: real, location: Text, siteAppointments: nat, siteDnaCount: nat,
                uniquePatients: nat, treatmentFunction: Text, orgCode: Text)

  datatype NodeRecord = NodeRecord(id: string, kind: NodeKind, community: int, riskLevel: Level, attrs: NodeAttrs)

  /** The patient attributes, with the `.get` defaults for a node that has no
      attribute record. */
  function PatientAttrsOf(g: Graph, k: string): NodeAttrs
  {
    if k in g.patientInfo then
      var info := g.patientInfo[k];
      PatientAttrs(info.dnaRate, info.ageGroup, info.age, info.totalAppointments, info.totalDnas,
                   info.uniqueSites, info.postcode, info.riskCategory)
    else PatientAttrs(0.0, Unknown, None, 0, 0, 0, Some(""), Medium)
  }

  function SiteAttrsOf(g: Graph, c: string): NodeAttrs
  {
    if c in g.siteInfo then
      var info := g.siteInfo[c];
      SiteAttrs(info.siteDnaRate, info.providerLocation, info.totalAppointments, info.totalDnas,
                info.uniquePatients, info.treatmentFunction, info.orgCode)
    else SiteAttrs(0.0, Some(""), 0, 0, 0, Some(""), Some(""))
  }

  function NodeRecordOf(g: Graph, p: Partition, rows: seq<CommunityRow>, t: Thresholds, n: Node): NodeRecord
  {
    var attrs := match n
      case Patient(k) => PatientAttrsOf(g, k)
      case Site(c) => SiteAttrsOf(g, c);
    NodeRecord(Name(n), if n.Patient? then PatientKind else SiteKind,
               NodeToCommunity(p, n), NodeRiskLevel(p, rows, t, n), attrs)
  }

  function NodeRecords(g: Graph, p: Partition, rows: seq<CommunityRow>, t: Thresholds): (r: seq<NodeRecord>)
    ensures |r| == |Nodes(g)|
    ensures forall i :: 0 <= i < |r| ==> r[i] == NodeRecordOf(g, p, rows, t, Nodes(g)[i])
  {
    var ns := Nodes(g);
    seq(|ns|, i requires 0 <= i < |ns| => NodeRecordOf(g, p, rows, t, ns[i]))
  }

  /** D3 force strength `min(weight / 10, 1)`. */
  function Strength(w: nat): (s: real)
    ensures 0.0 <= s <= 1.0
    ensures w >= 1 ==> s > 0.0
    ensures s == 1.0 <==> w >= 10
    ensures w < 10 ==> s * 10.0 == w as real
  {
    if 1.0 < w as real / 10.0 then 1.0 else w as real / 10.0
  }

  datatype LinkRecord = LinkRecord(
    source: string,
    target: string,
    weight: nat,
    dnaCount: nat,
    dnaRate: real,
    strength: real,
    treatmentFunction: Option<Text>,
    outcome: Option<Text>)

  /** A link runs from the patient to the site. d3_export.py copies the
      optional edge attributes, which the builder always sets; webapp.py does
      not. */
  function LinkOf(copy: ExportCopy, e: Edge): LinkRecord
  {
    LinkRecord(Name(Patient(e.patient)), Name(Site(e.site)), e.weight, e.dnaCount, e.dnaRate,
               Strength(e.weight),
               if copy == D3Module then Some(e.treatmentFunction) else None,
               if copy == D3Module then Some(e.outcome) else None)
  }

  /** The edges of one patient, in edge order. */
  function EdgesOf(edges: seq<Edge>, k: string): (r: seq<Edge>)
    ensures forall e :: e in r <==> e in edges && e.patient == k
  {
    if |edges| == 0 then []
    else
      var last := edges[|edges| - 1];
      EdgesOf(edges[..|edges| - 1], k) + (if last.patient == k then [last] else [])
  }

  /** networkx's edge order: node by node, patients first, each edge reported
      from its patient end. */
  function EdgesByPatient(edges: seq<Edge>, ps: seq<string>): seq<Edge>
  {
    if |ps| == 0 then [] else EdgesByPatient(edges, ps[..|ps| - 1]) + EdgesOf(edges, ps[|ps| - 1])
  }

  function LinkRecords(copy: ExportCopy, g: Graph): (r: seq<LinkRecord>)
    ensures |r| == |EdgesByPatient(g.edges, g.patients)|
    ensures forall i :: 0 <= i < |r| ==> r[i] == LinkOf(copy, EdgesByPatient(g.edges, g.patients)[i])
  {
    var es := EdgesByPatient(g.edges, g.patients);
    seq(|es|, i requires 0 <= i < |es| => LinkOf(copy, es[i]))
  }

  datatype CommunityRecord = CommunityRecord(
    id: nat,
    patients: nat,
    sites: nat,
    avgDnaRate: real,
    riskScore: real,
    dominantAge: AgeGroup,
    highRiskPatients: nat,
    mediumRiskPatients: nat,
    lowRiskPatients: nat,
    riskLevel: Level)

  function CommunityRecordOf(row: CommunityRow, t: Thresholds): CommunityRecord
  {
    CommunityRecord(row.communityId, row.patientsCount, row.sitesCount, row.avgDnaRate, row.riskScore,
                    row.dominantAgeGroup, row.highRiskPatients, row.mediumRiskPatients, row.lowRiskPatients,
                    TierOf(row.riskScore, t.low, t.high))
  }

  function CommunityRecords(rows: seq<CommunityRow>, t: Thresholds): (r: seq<CommunityRecord>)
    ensures |r| == |rows|
    ensures forall i :: 0 <= i < |rows| ==> r[i] == CommunityRecordOf(rows[i], t)
  {
    if |rows| == 0 then [] else CommunityRecords(rows[..|rows| - 1], t) + [CommunityRecordOf(rows[|rows| - 1], t)]
  }

  // ---------------------------------------------------------------- metadata and summary

  predicate IsHighRecord(c: CommunityRecord) { c.riskLevel == High }
  predicate IsMediumRecord(c: CommunityRecord) { c.riskLevel == Medium }
  predicate IsLowRecord(c: CommunityRecord) { c.riskLevel == Low }

  datatype Metadata = Metadata(
    totalNodes: nat,
    totalEdges: nat,
    totalCommunities: nat,
    highRiskCommunities: int,
    mediumRiskCommunities: int,
    lowRiskCommunities: int,
    thresholds: Thresholds,
    algorithm: string)

  /** The tier counts. d3_export.py counts High (>= high) and Low (<= low)
      independently over the table and takes Medium as what is left;
      webapp.py counts the records' exclusive `risk_level`. */
  function TierCounts(copy: ExportCopy, rows: seq<CommunityRow>, records: seq<CommunityRecord>, t: Thresholds): (int, int, int)
  {
    match copy
    case D3Module =>
      var high := |Select(rows, t.low, t.high, High)|;
      var low := |Select(rows, t.low, t.high, Low)|;
      (high, |rows| - high - low, low)
    case WebappModule =>
      (Count(records, IsHighRecord), Count(records, IsMediumRecord), Count(records, IsLowRecord))
  }

  predicate IsPatientRecord(r: NodeRecord) { r.kind == PatientKind }
  predicate IsSiteRecord(r: NodeRecord) { r.kind == SiteKind }

  /** Patient records with the given age group (`n.get('age_group') == a`). */
  function GroupCount(nodes: seq<NodeRecord>, a: AgeGroup): (k: nat)
    ensures k <= |nodes|
  {
    if |nodes| == 0 then 0
    else
      var last := nodes[|nodes| - 1];
      GroupCount(nodes[..|nodes| - 1], a) + (if last.attrs.PatientAttrs? && last.attrs.ageGroup == a then 1 else 0)
  }

  function AllAgeGroups(): set<AgeGroup>
  {
    {Child, YoungAdult, Adult, Senior, Unknown}
  }

  lemma EveryAgeGroupListed(a: AgeGroup)
    ensures a in AllAgeGroups()
  {
    match a
    case Child =>
    case YoungAdult =>
    case Adult =>
    case Senior =>
    case Unknown =>
  }

  /** `age_groups`: one entry per age group that some patient record has. */
  function AgeGroupCounts(nodes: seq<NodeRecord>): map<AgeGroup, nat>
  {
    map a | a in AllAgeGroups() && GroupCount(nodes, a) > 0 :: GroupCount(nodes, a)
  }

  datatype Summary = Summary(
    totalPatients: nat,
    totalSites: nat,
    ageGroups: map<AgeGroup, nat>,
    highCount: nat,
    mediumCount: nat,
    lowCount: nat)

  function SummaryOf(nodes: seq<NodeRecord>, records: seq<CommunityRecord>): Summary
  {
    Summary(Count(nodes, IsPatientRecord), Count(nodes, IsSiteRecord), AgeGroupCounts(nodes),
            Count(records, IsHighRecord), Count(records, IsMediumRecord), Count(records, IsLowRecord))
  }

  datatype Document = Document(
    metadata: Metadata,
    nodes: seq<NodeRecord>,
    links: seq<LinkRecord>,
    communities: seq<CommunityRecord>,
    summary: Summary)

  /** The export document: one node record per graph node, one community
      record per table row carrying that row's id and score, ordered
      thresholds, and a risk distribution that counts every community
      record once. pandas' quantile of an empty table is NaN, so at least one
      community row is required. */
  function ExportForD3(copy: ExportCopy, g: Graph, p: Partition, rows: seq<CommunityRow>): (doc: Document)
    requires |rows| > 0
    ensures |doc.nodes| == |Nodes(g)| == doc.metadata.totalNodes
    ensures |doc.communities| == |rows|
    ensures forall i :: 0 <= i < |rows| ==>
      doc.communities[i].id == rows[i].communityId && doc.communities[i].riskScore == rows[i].riskScore
    ensures doc.metadata.thresholds.low <= doc.metadata.thresholds.high
    ensures doc.summary.highCount + doc.summary.mediumCount + doc.summary.lowCount == |doc.communities|
  {
    var t := PercentileThresholds(rows);
    var nodes := NodeRecords(g, p, rows, t);
    var records := CommunityRecords(rows, t);
    PercentileThresholdsOrdered(rows);
    RecordLevelsSplit(records);
    var counts := TierCounts(copy, rows, records, t);
    Document(
      Metadata(|Nodes(g)|, |g.edges|, |p|, counts.0, counts.1, counts.2, t, "leiden"),
      nodes,
      LinkRecords(copy, g),
      records,
      SummaryOf(nodes, records))
  }

  // ---------------------------------------------------------------- properties

  lemma {:induction false} EdgesOfCount(edges: seq<Edge>, k: string, e: Edge)
    ensures multiset(EdgesOf(edges, k))[e] == if e.patient == k then multiset(edges)[e] else 0
  {
    if |edges| > 0 {
      var pre, last := edges[..|edges| - 1], edges[|edges| - 1];
      assert edges == pre + [last];
      EdgesOfCount(pre, k, e);
    }
  }

  /** Filtering a concatenation filters each part and keeps them in order, so
      a patient's edges stay in edge order. */
  lemma {:induction false} EdgesOfAppend(a: seq<Edge>, b: seq<Edge>, k: string)
    ensures EdgesOf(a + b, k) == EdgesOf(a, k) + EdgesOf(b, k)
    decreases |b|
  {
    if |b| == 0 {
      assert a + b == a;
    } else {
      var pre, x := b[..|b| - 1], b[|b| - 1];
      var tail := if x.patient == k then [x] else [];
      DropLastAppend(a, b);
      EdgesOfAppend(a, pre, k);
      assert EdgesOf(a + b, k) == EdgesOf(a + pre, k) + tail;
      assert EdgesOf(b, k) == EdgesOf(pre, k) + tail;
    }
  }

  lemma {:induction false} EdgesByPatientCount(edges: seq<Edge>, ps: seq<string>, e: Edge)
    requires NoDup(ps)
    ensures multiset(EdgesByPatient(edges, ps))[e] == if e.patient in ps then multiset(edges)[e] else 0
  {
    if |ps| > 0 {
      var pre, k := ps[..|ps| - 1], ps[|ps| - 1];
      assert ps == pre + [k];
      assert NoDup(pre);
      EdgesByPatientCount(edges, pre, e);
      EdgesOfCount(edges, k, e);
    }
  }

  /** In a well-formed graph the links are a reordering of the edges: one
      link record per edge. */
  lemma LinksAreEdges(copy: ExportCopy, g: Graph)
    requires WellFormed(g)
    ensures multiset(EdgesByPatient(g.edges, g.patients)) == multiset(g.edges)
    ensures |LinkRecords(copy, g)| == |g.edges|
    ensures forall i :: 0 <= i < |g.edges| ==> LinkOf(copy, g.edges[i]) in LinkRecords(copy, g)
  {
    var es := EdgesByPatient(g.edges, g.patients);
    EdgesByPatientPermutes(g.edges, g.patients);
    assert |es| == |multiset(es)| == |multiset(g.edges)| == |g.edges|;
    LinksCoverEdges(copy, es, LinkRecords(copy, g), g.edges);
  }

  /** When every edge's patient is listed once, walking the patients visits
      every edge exactly once. */
  lemma EdgesByPatientPermutes(edges: seq<Edge>, ps: seq<string>)
    requires NoDup(ps)
    requires forall i :: 0 <= i < |edges| ==> edges[i].patient in ps
    ensures multiset(EdgesByPatient(edges, ps)) == multiset(edges)
  {
    forall e
      ensures multiset(EdgesByPatient(edges, ps))[e] == multiset(edges)[e]
    {
      EdgesByPatientCount(edges, ps, e);
      if e in edges {
        var i :| 0 <= i < |edges| && edges[i] == e;
      }
    }
  }

  /** Links made one per element of a reordering of `edges` include the link
      of every edge. */
  lemma LinksCoverEdges(copy: ExportCopy, es: seq<Edge>, links: seq<LinkRecord>, edges: seq<Edge>)
    requires multiset(es) == multiset(edges)
    requires |links| == |es|
    requires forall i :: 0 <= i < |links| ==> links[i] == LinkOf(copy, es[i])
    ensures forall i :: 0 <= i < |edges| ==> LinkOf(copy, edges[i]) in links
  {
    forall i | 0 <= i < |edges|
      ensures LinkOf(copy, edges[i]) in links
    {
      assert edges[i] in multiset(es);
      var j :| 0 <= j < |es| && es[j] == edges[i];
      assert links[j] == LinkOf(copy, edges[i]);
    }
  }

  /** The nodes of a well-formed graph are distinct, so their ids are. */
  lemma NodeIdsDistinct(g: Graph, p: Partition, rows: seq<CommunityRow>, t: Thresholds)
    requires WellFormed(g)
    ensures var nodes := NodeRecords(g, p, rows, t);
      forall i, j :: 0 <= i < j < |nodes| ==> nodes[i].id != nodes[j].id
  {
    var ns := Nodes(g);
    var nodes := NodeRecords(g, p, rows, t);
    NodeNamesDistinct(g);
    forall i, j | 0 <= i < j < |nodes|
      ensures nodes[i].id != nodes[j].id
    {
      assert nodes[i].id == Name(ns[i]) && nodes[j].id == Name(ns[j]);
    }
  }

  /** Patients listed once and sites listed once give distinct node names. */
  lemma NodeNamesDistinct(g: Graph)
    requires NoDup(g.patients) && NoDup(g.sites)
    ensures forall i, j :: 0 <= i < j < |Nodes(g)| ==> Name(Nodes(g)[i]) != Name(Nodes(g)[j])
  {
    var ns := Nodes(g);
    var np := |g.patients|;
    forall i, j | 0 <= i < j < |ns|
      ensures Name(ns[i]) != Name(ns[j])
    {
      NameInjective(ns[i], ns[j]);
      if j < np {
        assert ns[i] == Patient(g.patients[i]) && ns[j] == Patient(g.patients[j]);
      } else if i >= np {
        assert ns[i] == Site(g.sites[i - np]) && ns[j] == Site(g.sites[j - np]);
      } else {
        assert ns[i].Patient? && ns[j].Site?;
      }
    }
  }

  /** Each node record carries its node's community: -1 exactly when no
      community lists it, else the last community that does. */
  lemma NodeCommunities(g: Graph, p: Partition, rows: seq<CommunityRow>, t: Thresholds)
    ensures var nodes := NodeRecords(g, p, rows, t);
      forall i :: 0 <= i < |nodes| ==>
        var c := nodes[i].community;
        && nodes[i].id == Name(Nodes(g)[i])
        && (nodes[i].kind == PatientKind <==> i < |g.patients|)
        && (c == -1 <==> forall k :: 0 <= k < |p| ==> Nodes(g)[i] !in p[k])
        && (c >= 0 ==> c < |p| && Nodes(g)[i] in p[c] && forall k :: c < k < |p| ==> Nodes(g)[i] !in p[k])
  {
  }

  /** The community records are found by id as the table rows are. */
  lemma RowForRecords(rows: seq<CommunityRow>, t: Thresholds, c: int)
    ensures (forall k :: 0 <= k < |rows| ==> CommunityRecords(rows, t)[k].id != c) ==> RowFor(rows, c).None?
    ensures var records := CommunityRecords(rows, t);
      forall k :: 0 <= k < |records| && records[k].id == c && FirstWithId(records, k) ==> RowFor(rows, c) == Some(k)
  {
    var records := CommunityRecords(rows, t);
    forall k | 0 <= k < |records| && records[k].id == c && FirstWithId(records, k)
      ensures RowFor(rows, c) == Some(k)
    {
      assert forall j :: 0 <= j < |rows| ==> records[j].id == rows[j].communityId;
    }
  }

  /** A node's level is the level of the first community record with its
      community's id, and Medium when it has no community or no record. */
  lemma NodeLevelMatchesCommunity(g: Graph, p: Partition, rows: seq<CommunityRow>, t: Thresholds, n: Node)
    ensures var node, records := NodeRecordOf(g, p, rows, t, n), CommunityRecords(rows, t);
      && (node.community == -1 ==> node.riskLevel == Medium)
      && ((forall k :: 0 <= k < |records| ==> records[k].id != node.community) ==> node.riskLevel == Medium)
      && forall k :: 0 <= k < |records| && records[k].id == node.community && FirstWithId(records, k) ==>
           node.riskLevel == records[k].riskLevel
  {
    RowForRecords(rows, t, NodeToCommunity(p, n));
  }

  /** Record `k` is the first with its id. */
  predicate FirstWithId(records: seq<CommunityRecord>, k: nat)
    requires k < |records|
  {
    forall j :: 0 <= j < k ==> records[j].id != records[k].id
  }

  /** The first records are the patients', the rest the sites'. */
  lemma NodeKinds(g: Graph, p: Partition, rows: seq<CommunityRow>, t: Thresholds)
    ensures var nodes := NodeRecords(g, p, rows, t);
      forall i :: 0 <= i < |nodes| ==>
        && (nodes[i].kind == PatientKind <==> i < |g.patients|)
        && (nodes[i].kind == PatientKind <==> nodes[i].attrs.PatientAttrs?)
  {
    var nodes := NodeRecords(g, p, rows, t);
    forall i | 0 <= i < |nodes|
      ensures nodes[i].kind == PatientKind <==> i < |g.patients|
      ensures nodes[i].kind == PatientKind <==> nodes[i].attrs.PatientAttrs?
    {
      var n := Nodes(g)[i];
      assert nodes[i] == NodeRecordOf(g, p, rows, t, n);
      assert n.Patient? <==> i < |g.patients|;
    }
  }

  /** The summary's node totals are the graph's patient and site counts, and
      together they account for every node record. */
  lemma SummaryTotals(g: Graph, p: Partition, rows: seq<CommunityRow>, t: Thresholds)
    ensures var nodes := NodeRecords(g, p, rows, t);
      && Count(nodes, IsPatientRecord) == |g.patients|
      && Count(nodes, IsSiteRecord) == |g.sites|
      && Count(nodes, IsPatientRecord) + Count(nodes, IsSiteRecord) == |nodes|
  {
    NodeKinds(g, p, rows, t);
    KindCounts(NodeRecords(g, p, rows, t), |g.patients|);
  }

  /** Records whose first `np` are the patients' count `np` patients and the
      rest sites. */
  lemma {:induction false} KindCounts(nodes: seq<NodeRecord>, np: nat)
    requires np <= |nodes|
    requires forall i :: 0 <= i < |nodes| ==> (nodes[i].kind == PatientKind <==> i < np)
    ensures Count(nodes, IsPatientRecord) == np
    ensures Count(nodes, IsSiteRecord) == |nodes| - np
  {
    if |nodes| > 0 {
      var pre := nodes[..|nodes| - 1];
      KindCounts(pre, if |nodes| > np then np else np - 1);
    }
  }

  /** The age-group counts of patient records add up to the number of
      patient records. */
  lemma {:induction false} GroupCountsSum(nodes: seq<NodeRecord>)
    requires forall i :: 0 <= i < |nodes| ==> (nodes[i].kind == PatientKind <==> nodes[i].attrs.PatientAttrs?)
    ensures GroupCount(nodes, Child) + GroupCount(nodes, YoungAdult) + GroupCount(nodes, Adult)
      + GroupCount(nodes, Senior) + GroupCount(nodes, Unknown) == Count(nodes, IsPatientRecord)
  {
    if |nodes| > 0 {
      GroupCountsSum(nodes[..|nodes| - 1]);
    }
  }

  /** `age_groups` has an entry exactly for the groups some patient record
      has, holding that group's count; the entries add up to the patient
      total. */
  lemma AgeGroupsSummary(g: Graph, p: Partition, rows: seq<CommunityRow>, t: Thresholds)
    ensures var nodes := NodeRecords(g, p, rows, t);
      var m := AgeGroupCounts(nodes);
      && (forall a :: a in m <==> GroupCount(nodes, a) > 0)
      && (forall a :: a in m ==> m[a] == GroupCount(nodes, a))
      && GroupCount(nodes, Child) + GroupCount(nodes, YoungAdult) + GroupCount(nodes, Adult)
         + GroupCount(nodes, Senior) + GroupCount(nodes, Unknown) == |g.patients|
  {
    var nodes := NodeRecords(g, p, rows, t);
    NodeKinds(g, p, rows, t);
    GroupCountsSum(nodes);
    SummaryTotals(g, p, rows, t);
    forall a ensures a in AllAgeGroups() {
      EveryAgeGroupListed(a);
    }

  }

  /** Every community record has exactly one level. */
  lemma {:induction false} RecordLevelsSplit(records: seq<CommunityRecord>)
    ensures Count(records, IsHighRecord) + Count(records, IsMediumRecord) + Count(records, IsLowRecord) == |records|
  {
    if |records| > 0 {
      RecordLevelsSplit(records[..|records| - 1]);
    }
  }

  /** The records' High count is the table's count of scores at or above the
      high threshold; with distinct thresholds the Medium and Low counts are
      the table's tier sizes too. */
  lemma {:induction false} RecordCountsMatchSelect(rows: seq<CommunityRow>, t: Thresholds)
    ensures var records := CommunityRecords(rows, t);
      Count(records, IsHighRecord) == |Select(rows, t.low, t.high, High)|
    ensures var records := CommunityRecords(rows, t);
      t.low < t.high ==>
        && Count(records, IsMediumRecord) == |Select(rows, t.low, t.high, Medium)|
        && Count(records, IsLowRecord) == |Select(rows, t.low, t.high, Low)|
  {
    if |rows| > 0 {
      var pre := rows[..|rows| - 1];
      RecordCountsMatchSelect(pre, t);
      assert CommunityRecords(rows, t)[..|rows| - 1] == CommunityRecords(pre, t);
    }
  }

  /** webapp.py's metadata counts are the summary's risk distribution, and
      they add up to the number of community records. */
  lemma WebappMetadataSums(g: Graph, p: Partition, rows: seq<CommunityRow>)
    requires |rows| > 0
    ensures var doc := ExportForD3(WebappModule, g, p, rows);
      var md := doc.metadata;
      && md.highRiskCommunities == doc.summary.highCount
      && md.mediumRiskCommunities == doc.summary.mediumCount
      && md.lowRiskCommunities == doc.summary.lowCount
      && 0 <= md.mediumRiskCommunities
      && md.highRiskCommunities + md.mediumRiskCommunities + md.lowRiskCommunities == |doc.communities| == |rows|
  {
    RecordLevelsSplit(CommunityRecords(rows, PercentileThresholds(rows)));
  }

  /** The summary's risk distribution adds up to the number of community
      records in both copies. */
  lemma RiskDistributionSums(copy: ExportCopy, g: Graph, p: Partition, rows: seq<CommunityRow>)
    requires |rows| > 0
    ensures var doc := ExportForD3(copy, g, p, rows);
      doc.summary.highCount + doc.summary.mediumCount + doc.summary.lowCount == |doc.communities|
  {
    RecordLevelsSplit(CommunityRecords(rows, PercentileThresholds(rows)));
  }

  /** With distinct thresholds the two copies count the same tiers. */
  lemma TierCountsAgree(rows: seq<CommunityRow>, t: Thresholds)
    requires t.low < t.high
    ensures var records := CommunityRecords(rows, t);
      TierCounts(D3Module, rows, records, t) == TierCounts(WebappModule, rows, records, t)
  {
    RecordCountsMatchSelect(rows, t);
    SelectPartition(rows, t.low, t.high);
  }

  /** With distinct percentile thresholds the two copies' metadata agree. */
  lemma CopiesAgreeOnDistinctThresholds(g: Graph, p: Partition, rows: seq<CommunityRow>)
    requires |rows| > 0
    ensures PercentileThresholds(rows).low < PercentileThresholds(rows).high ==>
      ExportForD3(D3Module, g, p, rows).metadata == ExportForD3(WebappModule, g, p, rows).metadata
  {
    var t := PercentileThresholds(rows);
    if t.low < t.high {
      TierCountsAgree(rows, t);
    }
  }

  /** d3_export.py's Medium count as written: a table of one community puts
      it in both High and Low, and Medium comes out as -1. */
  lemma D3MediumCountAsWritten(g: Graph, p: Partition, row: CommunityRow)
    ensures ExportForD3(D3Module, g, p, [row]).metadata.mediumRiskCommunities == -1
  {
    var t := PercentileThresholds([row]);
    SingleRowThresholdsCoincide(row);
    SingleRowCountsTwice(row, CommunityRecords([row], t), t);
  }

  /** With both thresholds at the only row's score, d3_export.py counts that
      row as High and as Low. */
  lemma SingleRowCountsTwice(row: CommunityRow, records: seq<CommunityRecord>, t: Thresholds)
    requires t.low == t.high == row.riskScore
    ensures TierCounts(D3Module, [row], records, t).1 == -1
  {
    assert [row][..0] == [];
    assert Select([row], t.low, t.high, High) == [row];
    assert Select([row], t.low, t.high, Low) == [row];
  }

  /** The exported thresholds are ordered, and some community lies at or
      below the low one and some at or above the high one. */
  lemma ExportThresholds(copy: ExportCopy, g: Graph, p: Partition, rows: seq<CommunityRow>)
    requires |rows| > 0
    ensures var t := ExportForD3(copy, g, p, rows).metadata.thresholds;
      && t.low <= t.high
      && (exists i :: 0 <= i < |rows| && rows[i].riskScore <= t.low)
      && (exists j :: 0 <= j < |rows| && t.high <= rows[j].riskScore)
  {
    PercentileThresholdsOrdered(rows);
  }

  /** The metadata totals count the document's own records. */
  lemma MetadataTotals(copy: ExportCopy, g: Graph, p: Partition, rows: seq<CommunityRow>)
    requires |rows| > 0 && WellFormed(g)
    ensures var doc := ExportForD3(copy, g, p, rows);
      && doc.metadata.totalNodes == |doc.nodes|
      && doc.metadata.totalEdges == |doc.links|
      && doc.metadata.totalCommunities == |p|
      && |doc.communities| == |rows|
  {
    LinksAreEdges(copy, g);
  }
}
