/** The pure parts of api.py: the read-side filters of `get_sample_graph`
    and `get_community_details` over the exported document, the guard of
    `initialize_analysis`, and the progress values `run_analysis` passes
    through. Loading the document from disk and the FastAPI plumbing are
    not modelled; the document and the `initialized` flag are parameters. */
module Api {
  import opened Common
  import opened Export

  datatype ApiError = NotInitialized | CommunityNotFound(id: int)

  function StatusCode(e: ApiError): nat
  {
    match e
    case NotInitialized => 400
    case CommunityNotFound(_) => 404
  }

  // ---------------------------------------------------------------- sample graph

  /** End index of Python's `xs[:size]` on a list of length `n`; a negative
      size counts from the end. */
  function SliceEnd(n: nat, size: int): (e: nat)
    ensures e <= n
  {
    if size >= 0 then (if size < n then size else n)
    else if n + size > 0 then n + size else 0
  }

  function NodeIds(nodes: seq<NodeRecord>): (ids: set<string>)
    ensures forall x :: x in ids <==> exists i :: 0 <= i < |nodes| && nodes[i].id == x
  {
    set i | 0 <= i < |nodes| :: nodes[i].id
  }

  /** The links with both ends in `ids`, in order (the list comprehension of
      `get_sample_graph`). */
  function LinksWithin(links: seq<LinkRecord>, ids: set<string>): (r: seq<LinkRecord>)
    ensures |r| <= |links|
    ensures forall l :: l in r <==> l in links && l.source in ids && l.target in ids
  {
    if |links| == 0 then []
    else
      var l := links[|links| - 1];
      LinksWithin(links[..|links| - 1], ids) + (if l.source in ids && l.target in ids then [l] else [])
  }

  /** Each link is kept as often as it occurs when both its ends are in
      `ids`, and dropped otherwise. */
  lemma {:induction false} LinksWithinCount(links: seq<LinkRecord>, ids: set<string>, l: LinkRecord)
    ensures multiset(LinksWithin(links, ids))[l] ==
      if l.source in ids && l.target in ids then multiset(links)[l] else 0
  {
    if |links| > 0 {
      var pre, last := links[..|links| - 1], links[|links| - 1];
      assert links == pre + [last];
      LinksWithinCount(pre, ids, l);
    }
  }

  /** Filtering a concatenation filters each part and keeps them in order, so
      the kept links stay in the order of the input. */
  lemma {:induction false} LinksWithinAppend(a: seq<LinkRecord>, b: seq<LinkRecord>, ids: set<string>)
    ensures LinksWithin(a + b, ids) == LinksWithin(a, ids) + LinksWithin(b, ids)
    decreases |b|
  {
    if |b| == 0 {
      assert a + b == a;
    } else {
      DropLastAppend(a, b);
      LinksWithinAppend(a, b[..|b| - 1], ids);
    }
  }

  function SampleGraph(initialized: bool, doc: Document, size: int): (r: Result<Document, ApiError>)
    ensures r.Failure? <==> !initialized
    ensures r.Failure? ==> r.error == NotInitialized
    ensures r.Success? ==>
      && r.value.metadata == doc.metadata
      && r.value.communities == doc.communities
      && r.value.summary == doc.summary
      && |r.value.nodes| <= |doc.nodes| && r.value.nodes == doc.nodes[..|r.value.nodes|]
      && (size >= 0 ==> |r.value.nodes| == if size < |doc.nodes| then size else |doc.nodes|)
      && (size < 0 ==> |r.value.nodes| == if |doc.nodes| + size > 0 then |doc.nodes| + size else 0)
      && forall l :: l in r.value.links <==>
           && l in doc.links
           && (exists i :: 0 <= i < |r.value.nodes| && r.value.nodes[i].id == l.source)
           && (exists j :: 0 <= j < |r.value.nodes| && r.value.nodes[j].id == l.target)
  {
    if !initialized then Failure(NotInitialized)
    else
      var nodes := doc.nodes[..SliceEnd(|doc.nodes|, size)];
      Success(Document(doc.metadata, nodes, LinksWithin(doc.links, NodeIds(nodes)), doc.communities, doc.summary))
  }

  // ---------------------------------------------------------------- community details

  datatype Stats = Stats(nodeCount: nat, linkCount: nat, patients: nat, sites: nat)

  datatype Details = Details(community: CommunityRecord, nodes: seq<NodeRecord>, links: seq<LinkRecord>, stats: Stats)

  /** `next(c for c in communities if c["id"] == id)`. */
  function FindCommunity(cs: seq<CommunityRecord>, id: int): (r: Option<nat>)
    ensures r.Some? ==>
      && r.value < |cs| && cs[r.value].id == id
      && forall j :: 0 <= j < r.value ==> cs[j].id != id
    ensures r.None? <==> forall j :: 0 <= j < |cs| ==> cs[j].id != id
  {
    if |cs| == 0 then None
    else if cs[0].id == id then Some(0)
    else
      match FindCommunity(cs[1..], id)
      case None => None
      case Some(k) => Some(k + 1)
  }

  /** The node records of community `id`, in order. */
  function MembersOf(nodes: seq<NodeRecord>, id: int): (r: seq<NodeRecord>)
    ensures |r| <= |nodes|
    ensures forall n :: n in r <==> n in nodes && n.community == id
  {
    if |nodes| == 0 then []
    else
      var n := nodes[|nodes| - 1];
      MembersOf(nodes[..|nodes| - 1], id) + (if n.community == id then [n] else [])
  }

  /** Each node record of community `id` is kept as often as it occurs, and
      every other record is dropped. */
  lemma {:induction false} MembersOfCount(nodes: seq<NodeRecord>, id: int, n: NodeRecord)
    ensures multiset(MembersOf(nodes, id))[n] == if n.community == id then multiset(nodes)[n] else 0
  {
    if |nodes| > 0 {
      var pre, last := nodes[..|nodes| - 1], nodes[|nodes| - 1];
      assert nodes == pre + [last];
      MembersOfCount(pre, id, n);
    }
  }

  /** Selecting the members of a concatenation selects from each part and
      keeps them in order, so the members stay in node order. */
  lemma {:induction false} MembersOfAppend(a: seq<NodeRecord>, b: seq<NodeRecord>, id: int)
    ensures MembersOf(a + b, id) == MembersOf(a, id) + MembersOf(b, id)
    decreases |b|
  {
    if |b| == 0 {
      assert a + b == a;
    } else {
      DropLastAppend(a, b);
      MembersOfAppend(a, b[..|b| - 1], id);
    }
  }

  /** Some node of community `id` has this id. */
  predicate IsMemberId(nodes: seq<NodeRecord>, id: int, name: string)
  {
    exists i :: 0 <= i < |nodes| && nodes[i].id == name && nodes[i].community == id
  }

  /** The links with at least one end in community `id`, in order. */
  function TouchingLinks(links: seq<LinkRecord>, nodes: seq<NodeRecord>, id: int): (r: seq<LinkRecord>)
    ensures |r| <= |links|
    ensures forall l :: l in r <==> l in links && (IsMemberId(nodes, id, l.source) || IsMemberId(nodes, id, l.target))
  {
    if |links| == 0 then []
    else
      var l := links[|links| - 1];
      TouchingLinks(links[..|links| - 1], nodes, id)
        + (if IsMemberId(nodes, id, l.source) || IsMemberId(nodes, id, l.target) then [l] else [])
  }

  /** Each link touching community `id` is kept as often as it occurs, and
      every other link is dropped. */
  lemma {:induction false} TouchingLinksCount(links: seq<LinkRecord>, nodes: seq<NodeRecord>, id: int, l: LinkRecord)
    ensures multiset(TouchingLinks(links, nodes, id))[l] ==
      if IsMemberId(nodes, id, l.source) || IsMemberId(nodes, id, l.target) then multiset(links)[l] else 0
  {
    if |links| > 0 {
      var pre, last := links[..|links| - 1], links[|links| - 1];
      assert links == pre + [last];
      TouchingLinksCount(pre, nodes, id, l);
    }
  }

  /** The touching-link filter distributes over concatenation, so the kept
      links stay in link order. */
  lemma {:induction false} TouchingLinksAppend(a: seq<LinkRecord>, b: seq<LinkRecord>, nodes: seq<NodeRecord>, id: int)
    ensures TouchingLinks(a + b, nodes, id) == TouchingLinks(a, nodes, id) + TouchingLinks(b, nodes, id)
    decreases |b|
  {
    if |b| == 0 {
      assert a + b == a;
    } else {
      DropLastAppend(a, b);
      TouchingLinksAppend(a, b[..|b| - 1], nodes, id);
    }
  }

  /** Patient and site records are counted apart and together make up all. */
  lemma {:induction false} NodeKindsSplit(nodes: seq<NodeRecord>)
    ensures Count(nodes, IsPatientRecord) + Count(nodes, IsSiteRecord) == |nodes|
  {
    if |nodes| > 0 {
      NodeKindsSplit(nodes[..|nodes| - 1]);
    }
  }

  function CommunityDetails(initialized: bool, doc: Document, id: int): (r: Result<Details, ApiError>)
    ensures !initialized ==> r == Failure(NotInitialized)
    ensures initialized && (forall k :: 0 <= k < |doc.communities| ==> doc.communities[k].id != id) ==>
      r == Failure(CommunityNotFound(id))
    ensures r.Failure? <==> !initialized || forall k :: 0 <= k < |doc.communities| ==> doc.communities[k].id != id
    ensures r.Success? ==>
      && r.value.community.id == id
      && r.value.community in doc.communities
      && FindCommunity(doc.communities, id).Some?
      && r.value.community == doc.communities[FindCommunity(doc.communities, id).value]
      && (forall n :: n in r.value.nodes <==> n in doc.nodes && n.community == id)
      && (forall l :: l in r.value.links <==>
            l in doc.links && (IsMemberId(doc.nodes, id, l.source) || IsMemberId(doc.nodes, id, l.target)))
      && r.value.stats.nodeCount == |r.value.nodes|
      && r.value.stats.linkCount == |r.value.links|
      && (forall n :: multiset(r.value.nodes)[n] == if n.community == id then multiset(doc.nodes)[n] else 0)
      && (forall l :: multiset(r.value.links)[l] ==
            if IsMemberId(doc.nodes, id, l.source) || IsMemberId(doc.nodes, id, l.target) then multiset(doc.links)[l] else 0)
      && r.value.stats.patients == Count(r.value.nodes, IsPatientRecord)
      && r.value.stats.sites == Count(r.value.nodes, IsSiteRecord)
      && r.value.stats.patients + r.value.stats.sites == r.value.stats.nodeCount
  {
    if !initialized then Failure(NotInitialized)
    else
      match FindCommunity(doc.communities, id)
      case None => Failure(CommunityNotFound(id))
      case Some(k) =>
        var nodes := MembersOf(doc.nodes, id);
        var links := TouchingLinks(doc.links, doc.nodes, id);
        NodeKindsSplit(nodes);
        assert forall n :: multiset(nodes)[n] == (if n.community == id then multiset(doc.nodes)[n] else 0) by {
          forall n { MembersOfCount(doc.nodes, id, n); }
        }
        assert (forall l :: multiset(links)[l] ==
                  if IsMemberId(doc.nodes, id, l.source) || IsMemberId(doc.nodes, id, l.target) then multiset(doc.links)[l] else 0) by {
          forall l { TouchingLinksCount(doc.links, doc.nodes, id, l); }
        }
        Success(Details(doc.communities[k], nodes, links,
          Stats(|nodes|, |links|, Count(nodes, IsPatientRecord), Count(nodes, IsSiteRecord))))
  }

  // ---------------------------------------------------------------- initialize and run

  /** The eight progress values of a running analysis, in the order
      `run_analysis` sets them. */
  const RunStages: seq<string> := ["loading_data", "sampling_data", "cleaning_data", "creating_graph",
    "detecting_communities", "analyzing_communities", "identifying_risk", "exporting_data"]

  predicate InProgress(progress: string)
  {
    progress in RunStages
  }

  datatype ApiState = ApiState(initialized: bool, progress: string)

  datatype InitReply = InitReply(message: string, status: string, started: bool)

  /** `initialize_analysis`: refuse while a run is in progress, report a
      finished analysis, otherwise schedule a run. */
  function Initialize(s: ApiState): (r: InitReply)
    ensures r.started <==> !InProgress(s.progress) && !s.initialized
    ensures InProgress(s.progress) ==> r.status == s.progress
    ensures !InProgress(s.progress) && s.initialized ==> r.status == "completed"
  {
    if InProgress(s.progress) then InitReply("Analysis already in progress", s.progress, false)
    else if s.initialized then InitReply("Analysis already completed", "completed", false)
    else InitReply("Analysis started", "initiated", true)
  }

  /** `run_analysis`: the progress values it passes through and the final
      state. An exception raised in stage `k` (loading, sampling, cleaning,
      building, detecting, analysing, tiering or exporting) ends the run with
      "error: " and the message; `initialized` keeps its value. */
  function ApiRun(s: ApiState, failure: Option<(nat, string)>): (r: (seq<string>, ApiState))
    requires failure.Some? ==> failure.value.0 < |RunStages|
    ensures 0 < |r.0| <= |RunStages| && r.0 == RunStages[..|r.0|]
    ensures failure.Some? ==> |r.0| == failure.value.0 + 1 && r.1.progress == "error: " + failure.value.1
    ensures !InProgress(r.1.progress)
    ensures r.1.initialized <==> failure.None? || s.initialized
  {
    match failure
    case None =>
      assert !InProgress("completed");
      (RunStages, ApiState(true, "completed"))
    case Some((k, msg)) =>
      ErrorIsNotInProgress(msg);
      (RunStages[..k + 1], ApiState(s.initialized, "error: " + msg))
  }

  /** What `detect_communities_leiden` returning None raises. */
  const DetectionFailure: (nat, string) := (4, "Community detection failed - check dependencies")

  lemma ErrorIsNotInProgress(msg: string)
    ensures !InProgress("error: " + msg)
  {
    var e := "error: " + msg;
    assert e[0] == 'e' && e[1] == 'r';
    assert forall i :: 0 <= i < |RunStages| ==> RunStages[i][0] != 'e' || RunStages[i][1] != 'r';
  }

  /** While a run is going, every progress value it sets makes
      `initialize` refuse with "already in progress"; the run ends in a
      state that is not in progress, from which `initialize` reports a
      completed analysis or, after an error with no earlier success, starts
      again. */
  lemma ApiRunGuard(s: ApiState, failure: Option<(nat, string)>)
    requires failure.Some? ==> failure.value.0 < |RunStages|
    ensures var (trace, final) := ApiRun(s, failure);
      && |trace| > 0 && trace[0] == "loading_data"
      && (forall k :: 0 <= k < |trace| ==>
            Initialize(ApiState(final.initialized, trace[k])) == InitReply("Analysis already in progress", trace[k], false))
      && !InProgress(final.progress)
      && (failure.None? ==> final.initialized && Initialize(final) == InitReply("Analysis already completed", "completed", false))
      && (failure.Some? ==> final.initialized == s.initialized && (Initialize(final).started <==> !s.initialized))
  {
    match failure
    case None =>
    case Some((k, msg)) =>
      ErrorIsNotInProgress(msg);
  }
}
