# NHyeS network analysis, modelled in Dafny

This project models the network-analysis core of the NHyeS dashboard in
Dafny. The core turns outpatient appointment records into a bipartite
patient–site graph and finds communities in it. It then scores each
community's "did not attend" (DNA) risk, splits the communities into risk
tiers, writes insights, and exports a D3.js document that a small web API
and a web app serve.

The model follows the pipeline stage by stage. There is one Dafny module per
stage:

- `Helpers`: `norm_str`, the normalisation of code columns (strip and upper-case).
- `Records`: `clean_for_network`, which drops rows without keys, fills the
  attendance code and flags codes 3 and 7 as DNA. Also `sample_data_for_network`.
- `BipartiteGraph` and `GraphTotals`: `create_enhanced_bipartite_graph`.
  - One node per patient and per site, one edge per (patient, site) pair.
  - Bayesian-smoothed DNA rates and age groups.
  - The edge-accumulation loop as written.
  - Conservation of appointment counts across patients, sites and edges.
- `Backbone`: `create_backbone`, the simplified disparity filter.
- `Communities`: the size filters, the choice of the best algorithm by
  modularity, the greedy fallback, and the spectral block's search for k.
- `Consensus`: the co-membership matrix of `create_consensus_clustering`.
- `Quantiles`: pandas' linearly interpolated `quantile`.
- `RiskScoring`: `analyze_community_dna_patterns` and
  `calculate_community_risk_score`.
- `Tiering`: `identify_high_low_risk_communities`, with fixed or percentile
  thresholds.
- `Insights`: `generate_community_insights`.
- `Export`: `export_for_d3js`, both the d3_export.py version and the webapp.py copy.
- `Api`: api.py's sample and community-details endpoints, and its
  initialise/run status protocol.
- `WebappStatus`: webapp.py's `start_analysis` / `run_analysis` status machine.

Numbers are exact reals. Nodes are `Patient(key)` / `Site(code)`. networkx
names them `P_<key>` / `S_<code>`, and `Name` gives those strings. Python's
evaluation-order details are modelled where they decide a result:

- `max` with a key returns the first maximum.
- A dict assignment keeps the last write.
- Slicing `[:size]` counts a negative size from the end.
- `groupby` lists labels in alphabetical order.
- networkx reports edges patient by patient.

Calls into foreign libraries are parameters of the model: the detection
algorithms (Leiden, Louvain, greedy modularity, label propagation, spectral
clustering) and their modularity scores, the random sample, and the outcome
of each pipeline stage.

Two behaviours are easy to misread, and the model follows the code as
written:

- A residual community of small nodes is not always kept.
  `filter_communities_by_size` keeps it only when no community was large
  enough and the residual has at least `min_size` nodes. The Leiden copies
  never keep it.
- An edge does not survive the backbone just because one endpoint finds it
  significant. It is removed as soon as any endpoint of degree above 1
  rejects it.

## Model

| member | source | states |
|---|---|---|
| Helpers.NormStr | nhyes-dashboard/network_analysis/helpers.py:3-4 | a missing cell stays missing; a present cell comes back as the upper-cased slice `s[lo..hi]` of its text, with everything outside the slice whitespace; the result has no lower-case ASCII letter and neither starts nor ends with whitespace |
| Helpers.StripIsTrimmedSlice | nhyes-dashboard/network_analysis/helpers.py:4 | `strip()` returns a contiguous slice of the input; every character cut off on either side is whitespace, and the slice does not start or end with whitespace |
| Helpers.NormStrIdempotent | nhyes-dashboard/network_analysis/helpers.py:3-4 | normalising an already normalised column changes nothing |
| Records.DnaFlagVocabulary | nhyes-dashboard/network_analysis/data_prep.py:94-120 | an illustration over the NHS attendance codes: only 3 (did not attend) and 7 (late, not seen) raise the DNA flag; cancellations, attendances and the fill value 0 do not |
| Records.CleanForNetwork | nhyes-dashboard/network_analysis/data_prep.py:104-120 | exactly the rows carrying both a patient key and a site code survive; every one of them appears cleaned; a missing attendance code becomes "0" with flag 0; the flag is 1 exactly for codes 3 and 7 |
| Records.CleanKeepsKeyedRowsInOrder | nhyes-dashboard/network_analysis/data_prep_leiden.py:96-112 | the i-th cleaned record comes from the i-th keyed input row and keeps that row's keys and (filled) attendance code |
| Records.SampleForNetwork | nhyes-dashboard/network_analysis/data_prep.py:77-90 | a table within the bound is returned unchanged; otherwise the result has exactly `max_records` rows, all drawn from the input without replacement |
| BipartiteGraph.NameInjective | nhyes-dashboard/network_analysis/data_prep.py:166-193 | the `P_`/`S_` node names never collide, and the prefix tells a patient from a site |
| BipartiteGraph.AgeGroupBands | nhyes-dashboard/network_analysis/data_prep.py:152-164 | Unknown exactly for a missing age; otherwise each group is its half-open band at 18, 35 and 65, and an older patient never lands in a younger group |
| BipartiteGraph.SmoothedRateBounds | nhyes-dashboard/network_analysis/data_prep.py:146-148 | the smoothed rate (d+1)/(n+5) is positive, below 1 when DNAs do not exceed appointments, strictly increasing in the DNA count, and 1/6 for one attended appointment |
| BipartiteGraph.CategorizeBands | nhyes-dashboard/network_analysis/data_prep.py:177 | `risk_category` is High above 0.3, Medium in (0.1, 0.3], Low otherwise, and never falls as the rate rises |
| BipartiteGraph.RowsNonEmpty | nhyes-dashboard/network_analysis/data_prep.py:139-140 | a key selects some records (so `iloc[0]` exists) exactly when it occurs |
| BipartiteGraph.EdgeOfCounts | nhyes-dashboard/network_analysis/data_prep.py:204-224 | an edge's weight is the number of records of its pair (at least 1), its DNA count the number of DNA records of that pair, and its rate lies in [0, 1] |
| BipartiteGraph.KeysOccur | nhyes-dashboard/network_analysis/data_prep.py:134-135 | a key is among `unique()`'s keys exactly when some record carries it |
| BipartiteGraph.BuildGraph | nhyes-dashboard/network_analysis/data_prep.py:129-226 | the graph is well formed, its patient nodes are exactly the patient keys that occur, and its site nodes exactly the site codes that occur |
| BipartiteGraph.KeysCount | nhyes-dashboard/network_analysis/data_prep.py:150 | `unique()` lists as many keys as `nunique()` counts |
| BipartiteGraph.BuildGraphWellFormed | nhyes-dashboard/network_analysis/data_prep.py:129-226 | the graph has distinct nodes, attributes for exactly its nodes, at most one edge per pair, edges only between existing nodes, 1 <= weight, dna_count <= weight, and edge rates in [0, 1] |
| BipartiteGraph.BuildGraphNodes | nhyes-dashboard/network_analysis/data_prep_leiden.py:121-128 | the patient nodes are exactly the patient keys that occur, and the site nodes exactly the site codes that occur |
| BipartiteGraph.BuildGraphEdges | nhyes-dashboard/network_analysis/webapp.py:178-198 | the edges are the distinct (patient, site) pairs in first-seen order, and a pair has an edge exactly when some record has that pair |
| BipartiteGraph.NodeRates | nhyes-dashboard/network_analysis/data_prep.py:138-202 | every patient and site node's appointment total is its own record count (at least 1), its DNA total the number of its DNA records, and its rate the smoothed (d+1)/(n+5) of the two, strictly in (0, 1); a patient's category is the band of its rate; `unique_sites` and `unique_patients` are the `nunique()` counts of its records, between 1 and the appointment total |
| BipartiteGraph.TallyPairs | nhyes-dashboard/network_analysis/data_prep.py:205-220 | the `has_edge` loop leaves, for each pair in first-seen order, its record count, DNA count and first record |
| BipartiteGraph.AccumulateEdges | nhyes-dashboard/network_analysis/data_prep.py:204-224 | the edge loop followed by the rate pass yields exactly the grouped-by-pair edges |
| GraphTotals.KeyTotalPartition | nhyes-dashboard/network_analysis/data_prep.py:138-191 | summing a per-record measure group by group over the distinct keys gives the measure of all records: the groups partition the records |
| GraphTotals.PatientAppointmentsConserved | nhyes-dashboard/network_analysis/data_prep.py:138-177 | the patients' `total_appointments` add up to the number of cleaned records: every record is counted at exactly one patient |
| GraphTotals.SiteAppointmentsConserved | nhyes-dashboard/network_analysis/data_prep.py:180-202 | the sites' `total_appointments` add up to the number of cleaned records: every record is counted at exactly one site |
| GraphTotals.EdgeAppointmentsConserved | nhyes-dashboard/network_analysis/data_prep.py:205-220 | the edge weights add up to the number of records and the edge DNA counts to the number of DNA records |
| Backbone.StrengthBounds | nhyes-dashboard/network_analysis/data_prep.py:236-237 | with positive weights a node's total weight is at least its degree and at least each of its edge weights |
| Backbone.CreateBackbone | nhyes-dashboard/network_analysis/data_prep.py:228-250 | the backbone has the same nodes and attributes; an edge survives exactly when no endpoint of degree above 1 scores it at or above alpha |
| Backbone.Survivors | nhyes-dashboard/network_analysis/data_prep.py:231-249 | the surviving edges are exactly the edges that no endpoint of degree above 1 rejects |
| Backbone.LeafEdgeSurvives | nhyes-dashboard/network_analysis/data_prep.py:234 | an edge whose two endpoints both have degree 1 always survives |
| Backbone.AsWrittenRejectsHeavierFirst | nhyes-dashboard/network_analysis/data_prep.py:242-247 | with the score as written, whenever a node rejects an edge it also rejects every heavier edge of its own |
| Backbone.CorrectedRejectsLighterFirst | nhyes-dashboard/network_analysis/data_prep.py:241-247 | with the textbook disparity score (1 - w/s)^(k-1), whenever a node rejects an edge it also rejects every lighter one, so heavy edges are kept |
| Backbone.BackboneDropsHeavyEdge | nhyes-dashboard/network_analysis/data_prep.py:242-247 | an illustration of the finding below: a patient with one visit to S1 and 99 to S2 at alpha 0.05: as written the 99-visit edge is rejected and the 1-visit edge kept; the textbook score does the opposite |
| Backbone.RejectedByAnyEndpoints | nhyes-dashboard/network_analysis/data_prep.py:233-247 | only an edge's two endpoints can put it on the removal list |
| Backbone.RejectAtNode | nhyes-dashboard/network_analysis/data_prep.py:234-247 | the inner loop adds exactly the pairs that node rejects and keeps what was already listed |
| Backbone.CollectRejected | nhyes-dashboard/network_analysis/data_prep.py:231-247 | the removal list holds an edge's pair exactly when some node rejects it |
| Backbone.CreateBackboneLoop | nhyes-dashboard/network_analysis/data_prep.py:228-250 | the node loop followed by `remove_edges_from` yields exactly `CreateBackbone` |
| Communities.SplitBySize | nhyes-dashboard/network_analysis/data_prep.py:416-423 | the kept communities all reach the minimum size; kept and small nodes together are a rearrangement of all nodes |
| Communities.SplitKeepsLarge | nhyes-dashboard/network_analysis/data_prep.py:419-421 | the kept communities are exactly the large-enough ones, in their original order |
| Communities.MergeSmall | nhyes-dashboard/network_analysis/data_prep.py:426-428 | the small nodes are appended to the first largest kept community, the others are unchanged, and no node is lost or added |
| Communities.FilterBySize | nhyes-dashboard/network_analysis/data_prep.py:414-432 | every result community reaches the minimum size. If something is kept, the result is the large-enough communities in their original order, with the small nodes appended to the first largest of them; no node is lost. If nothing is kept, the small nodes form one community only when there are at least `min_size` of them, else the result is empty |
| Communities.LeidenFilter | nhyes-dashboard/network_analysis/data_prep_leiden.py:245-259 | every result community reaches the minimum size. The result is the large-enough communities in their original order, with the small nodes appended to the first largest of them, and all nodes retained; it is empty if nothing was kept |
| Communities.FiltersAgreeWhenSomethingIsKept | nhyes-dashboard/network_analysis/webapp.py:226-240 | when some community is large enough, the webapp/Leiden filter and `filter_communities_by_size` give the same partition |
| Communities.DetectCommunitiesLeiden | nhyes-dashboard/network_analysis/data_prep_leiden.py:220-278 | no result without Leiden; the research script also gives none for an empty partition; otherwise the filtered partition |
| Communities.ResultsAreRuns | nhyes-dashboard/network_analysis/data_prep.py:258-331 | every stored result comes from a run that returned at least one community, the results keep the dict's order without repeats, and greedy is stored exactly when it produced a community |
| Communities.BestIndex | nhyes-dashboard/network_analysis/data_prep.py:384-392 | the chosen result has the highest modularity and is the first with it, provided it beats -1; none is chosen exactly when every modularity is at most -1 |
| Communities.SelectBest | nhyes-dashboard/network_analysis/data_prep.py:384-392 | the `stats['modularity'] > best_modularity` loop selects exactly `BestIndex` |
| Communities.FindGreedy | nhyes-dashboard/network_analysis/data_prep.py:404-407 | the greedy fallback exists exactly when greedy is among the results, and it is greedy's partition |
| Communities.DetectCommunitiesWithStats | nhyes-dashboard/network_analysis/data_prep.py:398-411 | the best result, filtered by size; without a best result, greedy's partition filtered by size whenever greedy is among the results; otherwise the RuntimeError "No community detection algorithms succeeded" |
| Communities.SelectionFails | nhyes-dashboard/network_analysis/data_prep.py:384-411 | no result at all raises; any result with modularity above -1 guarantees success |
| Communities.SpectralCandidates | nhyes-dashboard/network_analysis/data_prep.py:344 | the candidates are 10, 20, 50 and min(100, n // 50) |
| Communities.Considered | nhyes-dashboard/network_analysis/data_prep.py:344-345 | a candidate is run exactly when it is below the node count |
| Communities.RunAll | nhyes-dashboard/network_analysis/data_prep.py:344-363 | the runs succeed together exactly when each considered k succeeds, and then give each k's partition and modularity in order |
| Communities.SpectralStep | nhyes-dashboard/network_analysis/data_prep.py:333-375 | a spectral result needs scikit-learn and fewer than 5000 nodes; it is a non-empty partition for a considered 0 < k < n whose modularity exceeds -1 and is maximal among all considered runs |
| Communities.SpectralStepFirstBest | nhyes-dashboard/network_analysis/data_prep.py:344-363 | the chosen k is the first considered candidate of maximal modularity: every candidate run before it scores strictly less (`modularity > best_score`) |
| Communities.SpectralStepSucceeds | nhyes-dashboard/network_analysis/data_prep.py:334-366 | with scikit-learn, 50 <= n < 5000, and every considered run giving a non-empty partition with modularity above -1, the spectral step yields a result |
| Communities.SpectralScan | nhyes-dashboard/network_analysis/data_prep.py:341-363 | the loop raises exactly when some considered run raises; otherwise it ends holding the first k of maximal modularity, if any beats -1 |
| Communities.SpectralLoop | nhyes-dashboard/network_analysis/data_prep.py:333-375 | the spectral block as written computes exactly `SpectralStep` |
| Consensus.SimilarOf | nhyes-dashboard/network_analysis/data_prep.py:460-463 | the kept results are exactly those named leiden, louvain, greedy or spinglass |
| Consensus.SimilarOfCount | nhyes-dashboard/network_analysis/data_prep.py:460-463 | each similar result is kept as often as it occurs, and every other result is dropped |
| Consensus.SimilarOfAppend | nhyes-dashboard/network_analysis/data_prep.py:460-463 | filtering distributes over concatenation, so the kept results stay in the dict's order |
| Consensus.CreateConsensus | nhyes-dashboard/network_analysis/data_prep.py:456-490 | an empty dict raises; with fewer than two similar results the first result with the most communities is returned; otherwise the thresholded co-membership matrix over the similar results |
| Consensus.Matrix | nhyes-dashboard/network_analysis/data_prep.py:478-490 | a square matrix over the node list; it is symmetric, and every entry is 0 or above the threshold |
| Consensus.MatrixSymmetric | nhyes-dashboard/network_analysis/data_prep.py:478-490 | the matrix is symmetric and every entry is 0 or above the threshold |
| Consensus.PairSumIsTogether | nhyes-dashboard/network_analysis/data_prep.py:480-486 | in a partition listing each node at most once, one result adds 1 to entry (a, b) if it puts a and b in the same community and 0 otherwise |
| Consensus.CoCountIsAgreeing | nhyes-dashboard/network_analysis/data_prep.py:479-486 | over such partitions the raw entry counts the results that put the two nodes together |
| Consensus.EntryIsAgreement | nhyes-dashboard/network_analysis/data_prep.py:478-490 | each entry is the fraction of results that agree on the pair when that fraction exceeds the threshold, else 0, and lies in [0, 1] |
| Consensus.DiagonalIsOne | nhyes-dashboard/network_analysis/data_prep.py:478-490 | with a threshold below 1, a node that every result places has diagonal entry exactly 1 |
| Quantiles.Sort | nhyes-dashboard/network_analysis/data_prep_leiden.py:366-367 | the sorted sample is ordered and a permutation of the sample |
| Quantiles.Quantile | nhyes-dashboard/network_analysis/data_prep_leiden.py:366-367 | some value of the sample is at most the quantile and some value at least it |
| Quantiles.QuantileWithinRange | nhyes-dashboard/network_analysis/data_prep_leiden.py:366-367 | the 0 quantile is the smallest score and the 1 quantile the largest (the interpolation is pinned at both ends), and every quantile lies between them |
| Quantiles.QuantileMonotone | nhyes-dashboard/network_analysis/data_prep_leiden.py:366-367 | the 0.75 quantile is never below the 0.25 quantile (a higher q never gives less) |
| RiskScoring.PatientKeys | nhyes-dashboard/network_analysis/data_prep.py:535 | the patient list holds exactly the community's patient nodes |
| RiskScoring.SiteCodes | nhyes-dashboard/network_analysis/data_prep.py:536 | the site list holds exactly the community's site nodes |
| RiskScoring.KindsSplit | nhyes-dashboard/network_analysis/data_prep.py:535-536 | patients and sites together account for the whole community |
| RiskScoring.HighShare | nhyes-dashboard/network_analysis/data_prep.py:593-594 | the High share lies in [0, 1]; it is 0 exactly when no patient is High and 1 exactly when all are |
| RiskScoring.CompositeScore | nhyes-dashboard/network_analysis/data_prep.py:586-598 | 0 for a community without rates; in [0, 1] when all rates are |
| RiskScoring.CompositeScoreBounds | nhyes-dashboard/network_analysis/data_prep.py:586-598 | 0 without rates; with rates in [0, 1] the score lies in [0, 1], and it equals 1 exactly when every rate is 1 and every patient is High |
| RiskScoring.InlineMatchesComposite | nhyes-dashboard/network_analysis/webapp.py:286-295 | webapp.py's inline score equals `calculate_community_risk_score` for the same patients, empty communities included |
| RiskScoring.FirstMostFrequent | nhyes-dashboard/network_analysis/data_prep.py:548-549 | the chosen position holds a group of maximal frequency, and no earlier position does |
| RiskScoring.DominantIsFirstMostFrequent | nhyes-dashboard/network_analysis/data_prep_leiden.py:301-302 | the dominant group is one of the patients' groups with the highest count, seen no later than any other equally frequent group; Unknown for no patients |
| RiskScoring.AnalyzeCommunity | nhyes-dashboard/network_analysis/data_prep.py:533-574 | a row exactly when the community holds a patient, carrying the community's `enumerate` index and its size |
| RiskScoring.AnalyzeCommunityExists | nhyes-dashboard/network_analysis/data_prep.py:538-539 | a community gets a row exactly when it holds a patient |
| RiskScoring.AnalyzeCommunityRow | nhyes-dashboard/network_analysis/data_prep.py:533-574 | a community holding a patient gets a row; the row's patients and sites sum to its size, its High/Medium/Low counts sum to its patients, its dominant group is some patient's group, and its score is the composite score of its patients, in [0, 1] when the graph's rates are |
| RiskScoring.AnalyzeCommunities | nhyes-dashboard/network_analysis/data_prep.py:533-579 | pandas raises KeyError exactly when a community names a node that is not in the graph or no community holds a patient, since the table then has no `risk_score` column to sort by; otherwise the table is non-empty |
| RiskScoring.TableEmpty | nhyes-dashboard/network_analysis/data_prep.py:533-576 | the table is empty exactly when no community holds a patient |
| RiskScoring.Table | nhyes-dashboard/network_analysis/data_prep.py:533-576 | at most one row per community, in increasing community-id order |
| RiskScoring.TableRowsAreAnalyses | nhyes-dashboard/network_analysis/data_prep.py:533-574 | every row is the analysis of the community its id names |
| RiskScoring.TableCoversPatients | nhyes-dashboard/network_analysis/data_prep.py:533-574 | every community holding a patient has its row in the table |
| Tiering.TierOf | nhyes-dashboard/network_analysis/d3_export.py:126-132 | an export's level is High exactly at or above the high threshold, Low exactly below it and at or below the low threshold, and Medium strictly between |
| Tiering.IdentifyWithMode | nhyes-dashboard/network_analysis/data_prep_leiden.py:360-409 | every tier holds rows of the table; the fixed thresholds put each community in exactly one tier; the percentile thresholds leave neither the High nor the Low tier empty |
| Tiering.TierTests | nhyes-dashboard/network_analysis/data_prep_leiden.py:381-386 | with distinct thresholds each score passes exactly one tier test, and that test names its export level; with equal thresholds no score is Medium and a score at the threshold is both High and Low |
| Tiering.Select | nhyes-dashboard/network_analysis/data_prep.py:604-609 | a tier holds exactly the rows passing its test |
| Tiering.SelectPartition | nhyes-dashboard/network_analysis/data_prep_leiden.py:381-386 | with distinct thresholds the three tiers partition the table |
| Tiering.FixedTiersPartition | nhyes-dashboard/network_analysis/data_prep.py:600-609 | with the fixed thresholds 0.3 and 0.1 every community lands in exactly one tier |
| Tiering.PercentileThresholdsOrdered | nhyes-dashboard/network_analysis/data_prep_leiden.py:364-386 | the 0.25 and 0.75 quantile thresholds are ordered, and the High and the Low tiers are both non-empty |
| Tiering.SingleRowThresholdsCoincide | nhyes-dashboard/network_analysis/webapp.py:325-338 | a one-community table makes both percentile thresholds equal its score |
| Insights.HighRiskInsights | nhyes-dashboard/network_analysis/data_prep_leiden.py:417-427 | one High Risk insight per High community, in tier order, with its id, patients, rate and focus group |
| Insights.AlphaRank | nhyes-dashboard/network_analysis/data_prep_leiden.py:441 | each age group has a position in the alphabetical order of the labels |
| Insights.PresentGroups | nhyes-dashboard/network_analysis/data_prep_leiden.py:441 | the grouped labels are exactly the groups dominating some community, in alphabetical order |
| Insights.BestGroupIndex | nhyes-dashboard/network_analysis/data_prep_leiden.py:441-443 | the chosen group has the highest mean score, and no earlier group has it |
| Insights.DemographicGroupIsBest | nhyes-dashboard/network_analysis/data_prep_leiden.py:441-449 | the named group dominates some community, no group has a higher mean risk score, and among equal means it comes first alphabetically |
| Insights.GenerateInsights | nhyes-dashboard/network_analysis/data_prep_leiden.py:411-449 | exactly one High Risk insight per High community, in order; a Site Performance insight exactly when the High tier is non-empty with mean site rate above 0.2, never two; one Demographic Pattern insight exactly for a non-empty table |
| Insights.InsightContents | nhyes-dashboard/network_analysis/data_prep_leiden.py:417-449 | the first insights are the High Risk insights of the High communities in tier order, each with its id, patients, DNA rate and focus group; a Site Performance insight carries the High tier's mean site rate; for a non-empty table the last insight names `DemographicGroup`, the group of highest mean risk |
| Export.NodeToCommunity | nhyes-dashboard/network_analysis/d3_export.py:21-24 | -1 exactly when no community lists the node; otherwise the last community listing it |
| Export.CommunityMap | nhyes-dashboard/network_analysis/d3_export.py:21-24 | the dict built by the double loop has exactly the listed nodes as keys, and its `.get(node, -1)` agrees with `NodeToCommunity` |
| Export.RowFor | nhyes-dashboard/network_analysis/d3_export.py:42-44 | the row found for an id is the first row with that id; none exactly when no row has it |
| Export.NodeRecords | nhyes-dashboard/network_analysis/d3_export.py:35-89 | one record per graph node, in networkx node order |
| Export.Strength | nhyes-dashboard/network_analysis/d3_export.py:100 | the force strength lies in [0, 1], is positive for a positive weight, is 1 exactly from weight 10 on, and is weight/10 below that |
| Export.EdgesOf | nhyes-dashboard/network_analysis/d3_export.py:93 | a patient's edges are exactly the edges at that patient |
| Export.EdgesOfCount | nhyes-dashboard/network_analysis/d3_export.py:93 | each edge at the patient is listed as often as it occurs, and no other edge is listed |
| Export.EdgesOfAppend | nhyes-dashboard/network_analysis/d3_export.py:93 | the edge filter distributes over concatenation, so a patient's edges stay in edge order |
| Export.ExportForD3 | nhyes-dashboard/network_analysis/d3_export.py:6-182 | one node record per graph node, counted in the metadata; one community record per table row, with that row's id and score; ordered thresholds; a risk distribution that counts every community record once |
| Export.LinksAreEdges | nhyes-dashboard/network_analysis/d3_export.py:92-109 | networkx's patient-by-patient edge order is a reordering of the edges, so there is exactly one link per edge |
| Export.NodeIdsDistinct | nhyes-dashboard/network_analysis/d3_export.py:57-60 | the node records' ids are pairwise distinct |
| Export.NodeCommunities | nhyes-dashboard/network_analysis/d3_export.py:36-38 | each record carries its node's name, its kind, and its community: -1 when unlisted, else the last listing community |
| Export.RowForRecords | nhyes-dashboard/network_analysis/d3_export.py:42-44 | looking up the table by id finds the first community record with that id |
| Export.NodeLevelMatchesCommunity | nhyes-dashboard/network_analysis/d3_export.py:40-54 | a node's level is the level of the first community record with its community id, and Medium without a community or a record |
| Export.SummaryTotals | nhyes-dashboard/network_analysis/d3_export.py:156-157 | the summary counts as many patients and sites as the graph has, and together they account for every node record |
| Export.GroupCountsSum | nhyes-dashboard/network_analysis/d3_export.py:159-162 | the age-group counts of the patient records add up to the number of patient records |
| Export.AgeGroupsSummary | nhyes-dashboard/network_analysis/d3_export.py:159-162 | `age_groups` has an entry exactly for the groups some patient has, with that group's count, and the counts add up to the number of patients |
| Export.RecordLevelsSplit | nhyes-dashboard/network_analysis/d3_export.py:126-134 | every community record has exactly one level |
| Export.RecordCountsMatchSelect | nhyes-dashboard/network_analysis/d3_export.py:31-32 | the records' High count is the table's count of scores at or above the high threshold; with distinct thresholds the Medium and Low counts are the tier sizes too |
| Export.WebappMetadataSums | nhyes-dashboard/network_analysis/webapp.py:500-518 | webapp.py's metadata tier counts equal the summary's risk distribution, are never negative, and add up to the number of communities |
| Export.RiskDistributionSums | nhyes-dashboard/network_analysis/d3_export.py:163-167 | the summary's risk distribution adds up to the number of community records in both copies |
| Export.TierCountsAgree | nhyes-dashboard/network_analysis/d3_export.py:141-144 | with distinct thresholds both copies count the same three tiers |
| Export.CopiesAgreeOnDistinctThresholds | nhyes-dashboard/network_analysis/d3_export.py:137-151 | with distinct percentile thresholds the two copies produce the same metadata |
| Export.D3MediumCountAsWritten | nhyes-dashboard/network_analysis/d3_export.py:141-144 | as written, a one-community table gives `medium_risk_communities` = -1 |
| Export.ExportThresholds | nhyes-dashboard/network_analysis/d3_export.py:27-28 | the exported thresholds are ordered, with some community at or below the low one and some at or above the high one |
| Export.MetadataTotals | nhyes-dashboard/network_analysis/d3_export.py:137-141 | the metadata counts the document's own node and link records, and the partition's communities |
| Api.SliceEnd | nhyes-dashboard/network_analysis/api.py:371 | `[:size]` stops at size or the list's end; a negative size counts from the end, never below 0 |
| Api.LinksWithin | nhyes-dashboard/network_analysis/api.py:372-375 | the kept links are exactly those with both ends among the sampled ids |
| Api.LinksWithinCount | nhyes-dashboard/network_analysis/api.py:372-375 | each link with both ends sampled is kept as often as it occurs, and every other link is dropped |
| Api.LinksWithinAppend | nhyes-dashboard/network_analysis/api.py:372-375 | the link filter distributes over concatenation, so the kept links stay in input order |
| Api.SampleGraph | nhyes-dashboard/network_analysis/api.py:360-383 | refused exactly when not initialised; otherwise the metadata, communities and summary are unchanged, the nodes are the prefix Python's slice gives, and a link is kept exactly when both its ends are sampled nodes |
| Api.FindCommunity | nhyes-dashboard/network_analysis/api.py:321-323 | the first community with the id; none exactly when no community has it |
| Api.MembersOf | nhyes-dashboard/network_analysis/api.py:326 | exactly the node records of the community |
| Api.MembersOfCount | nhyes-dashboard/network_analysis/api.py:326 | each node record of the community is listed as often as it occurs in the document, and no other record is listed |
| Api.MembersOfAppend | nhyes-dashboard/network_analysis/api.py:326 | the member selection distributes over concatenation, so the members stay in node order |
| Api.TouchingLinks | nhyes-dashboard/network_analysis/api.py:327-330 | exactly the links with at least one end in the community |
| Api.TouchingLinksCount | nhyes-dashboard/network_analysis/api.py:327-330 | each link touching the community is listed as often as it occurs, and no other link is listed |
| Api.TouchingLinksAppend | nhyes-dashboard/network_analysis/api.py:327-330 | the touching-link filter distributes over concatenation, so the links stay in link order |
| Api.CommunityDetails | nhyes-dashboard/network_analysis/api.py:310-341 | 400 when not initialised; 404 exactly when no community has the id; otherwise the first community record with the id, its member nodes and touching links each with the multiplicity they have in the document, `node_count` and `link_count` their lengths, and `patients` and `sites` the counts of patient and of site records among the members, which sum to `node_count` |
| Api.Initialize | nhyes-dashboard/network_analysis/api.py:242-256 | a run starts exactly when no run is in progress and none has succeeded; during a run the reply reports the current stage, and after success it reports "completed" |
| Api.ApiRun | nhyes-dashboard/network_analysis/api.py:138-213 | the progress values are a non-empty prefix of the eight stages, ending at the stage that raised; the final progress is never an in-progress value; `initialized` becomes true on success and is otherwise kept |
| Api.ApiRunGuard | nhyes-dashboard/network_analysis/api.py:138-213 | every progress value a run sets makes `/initialize` answer "already in progress"; the run ends outside that set; after success `/initialize` reports completion, and after an error it starts again exactly when no earlier run had succeeded |
| Api.ErrorIsNotInProgress | nhyes-dashboard/network_analysis/api.py:211-247 | an "error: ..." progress is never one of the in-progress values |
| WebappStatus.StartAnalysis | nhyes-dashboard/network_analysis/webapp.py:634-643 | a run is scheduled exactly when the status is not "loading"; a refusal leaves the state unchanged, and an accepted start resets it to loading at 0 |
| WebappStatus.Trace | nhyes-dashboard/network_analysis/webapp.py:546-583 | the run passes through the stage states in order, one per stage reached |
| WebappStatus.WebRun | nhyes-dashboard/network_analysis/webapp.py:539-597 | the run passes through a non-empty prefix of the stage states; it ends "completed" exactly when nothing raised, then at 100 with the document; after a failure it ends "error" at the progress reached, keeping the earlier data |
| WebappStatus.WebRunProgress | nhyes-dashboard/network_analysis/webapp.py:539-597 | progress starts at 10 and rises strictly while loading; success ends "completed" at 100 with the document; failure ends "error" at the progress reached, keeping the earlier data |
| WebappStatus.StartDuringAndAfterRun | nhyes-dashboard/network_analysis/webapp.py:634-643 | a start is refused in every state of a running analysis and accepted once it has ended |

## Left out

- Reading the CSV extract, pandas' column coercion and `load_and_preprocess_data` are left out. Records arrive as already-coerced values; `norm_str` is modelled on one cell.
- Helpers.NormStr: upper-casing is modelled for the ASCII letters only. Python's `str.upper` also maps other letters, and some to several characters ('ß' becomes "SS"), so on non-ASCII text the source can return a different and longer string.
- Records.SampleForNetwork: the random draw of `df.sample` is a parameter. Only its size and without-replacement property are stated.
- The detection algorithms themselves are foreign library calls: Leiden, Louvain, greedy modularity, label propagation, spectral clustering and spinglass. So is modularity. Their results are parameters.
- Consensus.CreateConsensus: the final clustering of the thresholded matrix is a foreign algorithm call, so the model stops at the matrix.
- Plotting, printing and the summary statistics that are only printed are left out. This covers `visualize_community_analysis`, `draw_community_network` and the printed quantiles.
- The median and standard deviation columns of the community table are left out: no later stage reads them. So is the summary's `overall_dna_rate` (a float mean used only for display).
- RiskScoring.Table: the final `sort_values('risk_score', ascending=False)` is left out, so rows stay in partition order. numpy's default quicksort is not stable, so the order of equal scores is not defined by the code.
- Insights.DemographicGroupIsBest: among groups of equal mean risk the alphabetically first is named. That assumes `sort_values(ascending=False)` keeps tied groups in `groupby` order; numpy's default quicksort does not promise this, so on some platforms the source may name another tied group.
- The FastAPI and HTTP layer is left out: routing, JSON files, `datetime.now()` in the metadata, and the mutable global `analysis_state` (modelled as explicit state values).
- HTTP error detail strings are left out. Errors are modelled by kind and status code.
- The pipeline stages run by `run_analysis` are left out in both api.py and webapp.py. Their outcome (which stage raised, with what message) is a parameter.
- Export.ExportForD3 requires a non-empty community table, because pandas' quantile of an empty table is NaN and the model uses exact reals.
- Export.LinkOf: the link `weight` default of 1 is not modelled. The builder always sets the weight, so the default cannot be reached.
- IEEE floating point is not modelled: all rates and scores are exact reals, so rounding is absent.
- The `/settings` form and HTML page handlers of webapp.py are left out, because they only store or render values.
- `basic_community_detection` and the `__main__` driver scripts are left out, because they only call the modelled functions.

## Findings

| source | as written | input that shows it | evidently intended | confidence | as-written member | corrected member |
|---|---|---|---|---|---|---|
| nhyes-dashboard/network_analysis/d3_export.py:141-144 | `medium_risk_communities` is the row count minus the High count minus the Low count, where High (score >= 0.75 quantile) and Low (score <= 0.25 quantile) can overlap | a table with one community: both thresholds equal its score, it counts as High and as Low, and Medium comes out as -1 | count each community once, by its exclusive `risk_level`, as webapp.py does | not executed | Export.D3MediumCountAsWritten | Export.WebappMetadataSums |
| nhyes-dashboard/network_analysis/data_prep.py:242-247 | the disparity score is (w/s)^(k-1), which grows with the edge weight, so the heaviest edges of a node are the ones rejected | one patient with 1 visit to site S1 and 99 to S2, alpha 0.05: the score is 0.01 for S1 (kept) and 0.99 for S2 (removed) | the disparity filter's (1 - w/s)^(k-1), under which the significant (heavy) edges are kept | not executed | Backbone.AsWrittenRejectsHeavierFirst | Backbone.CorrectedRejectsLighterFirst |
