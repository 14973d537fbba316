/** The analysis status of webapp.py: `start_analysis` refuses while a run is
    loading and otherwise resets the status, and `run_analysis` walks the
    progress through 10, 30, 50, 70, 85, 95 to 100 and "completed", or stops
    with "error" where an exception was raised. The pipeline's results are
    parameters. */
module WebappStatus {
  import opened Common
  import opened Export

  datatype WebState = WebState(status: string, progress: nat, message: string, data: Option<Document>)

  /** `start_analysis`: the new state and whether a run was scheduled. */
  function StartAnalysis(s: WebState): (r: (WebState, bool))
    ensures r.1 <==> s.status != "loading"
    ensures !r.1 ==> r.0 == s
    ensures r.1 ==> r.0 == s.(status := "loading", progress := 0, message := "Starting analysis...")
  {
    if s.status == "loading" then (s, false)
    else (s.(status := "loading", progress := 0, message := "Starting analysis..."), true)
  }

  /** The progress and message set before each stage of the run. */
  const Steps: seq<(nat, string)> := [
    (10, "Loading NHS data..."),
    (30, "Cleaning data..."),
    (50, "Creating network graph..."),
    (70, "Detecting communities with Leiden algorithm..."),
    (85, "Analyzing community patterns..."),
    (95, "Exporting visualization data...")]

  function DigitChar(d: nat): char
    requires d < 10
  {
    "0123456789"[d]
  }

  /** Decimal form of a natural number, as `str` prints it. */
  function NatToString(n: nat): string
  {
    if n < 10 then [DigitChar(n)] else NatToString(n / 10) + [DigitChar(n % 10)]
  }

  function StepState(s: WebState, k: nat): WebState
    requires k < |Steps|
  {
    WebState("loading", Steps[k].0, Steps[k].1, s.data)
  }

  /** The states the run passes through before stage `k` raises, or all of
      them. */
  function Trace(s: WebState, n: nat): (r: seq<WebState>)
    requires n <= |Steps|
    ensures |r| == n
    ensures forall k :: 0 <= k < n ==> r[k] == StepState(s, k)
  {
    if n == 0 then [] else Trace(s, n - 1) + [StepState(s, n - 1)]
  }

  /** `run_analysis`: `failure` is the stage whose work raised and the
      exception's message, `communities` and `doc` what a successful run
      finds and exports. */
  function WebRun(s: WebState, failure: Option<(nat, string)>, communities: nat, doc: Document): (r: (seq<WebState>, WebState))
    requires failure.Some? ==> failure.value.0 < |Steps|
    ensures 0 < |r.0| <= |Steps| && r.0 == Trace(s, |r.0|)
    ensures r.1.status == "completed" <==> failure.None?
    ensures failure.None? ==> |r.0| == |Steps| && r.1.progress == 100 && r.1.data == Some(doc)
    ensures failure.Some? ==>
      && |r.0| == failure.value.0 + 1
      && r.1.status == "error"
      && r.1.progress == r.0[|r.0| - 1].progress
      && r.1.data == s.data
  {
    match failure
    case None =>
      (Trace(s, |Steps|),
       WebState("completed", 100, "Analysis complete! Found " + NatToString(communities) + " communities", Some(doc)))
    case Some((k, msg)) =>
      (Trace(s, k + 1), WebState("error", Steps[k].0, "Analysis failed: " + msg, s.data))
  }

  /** What `detect_communities_leiden` returning None raises: after the
      progress reached 70. */
  const DetectionFailure: (nat, string) := (3, "Community detection failed")

  /** The progress rises strictly from 10 while the status is "loading"; a
      successful run ends "completed" at 100 with the exported document, a
      failed one ends "error" at the progress it had reached, keeping the
      earlier data. */
  lemma WebRunProgress(s: WebState, failure: Option<(nat, string)>, communities: nat, doc: Document)
    requires failure.Some? ==> failure.value.0 < |Steps|
    ensures var (trace, final) := WebRun(s, failure, communities, doc);
      && |trace| > 0 && trace[0].progress == 10
      && (forall k :: 0 <= k < |trace| ==> trace[k].status == "loading")
      && (forall i, j :: 0 <= i < j < |trace| ==> trace[i].progress < trace[j].progress)
      && trace[|trace| - 1].progress <= final.progress
      && (failure.None? ==> final.status == "completed" && final.progress == 100 && final.data == Some(doc))
      && (failure.Some? ==> final.status == "error" && final.progress == trace[|trace| - 1].progress && final.data == s.data)
  {
    assert forall i, j :: 0 <= i < j < |Steps| ==> Steps[i].0 < Steps[j].0;
  }

  /** `start_analysis` refuses in every state the run passes through and
      leaves it unchanged; once the run has ended it is accepted again. */
  lemma StartDuringAndAfterRun(s: WebState, failure: Option<(nat, string)>, communities: nat, doc: Document)
    requires failure.Some? ==> failure.value.0 < |Steps|
    ensures var (trace, final) := WebRun(s, failure, communities, doc);
      && (forall k :: 0 <= k < |trace| ==> StartAnalysis(trace[k]) == (trace[k], false))
      && StartAnalysis(final).1
      && StartAnalysis(final).0.progress == 0
  {
  }
}
