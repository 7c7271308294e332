/** The two views the controller re-derives from its state after every
    change: the value handed to the status-bar widget (`_renderCoverage`) and
    the contents of the `flow_coverage` diagnostic collection
    (`_renderDiagnostics`). Both are pure functions of the state. */
module Render {
  import opened CoverageTypes
  import opened TypeCoverage

  /** The argument of `StatusBarWidget.setCoverage` when it is not `null`. */
  datatype CoverageStatus = CoverageStatus(computing: bool, coveredPercent: Option<int>, showingUncovered: bool)

  datatype Severity = Error | Warning | Information | Hint

  datatype Diagnostic = Diagnostic(range: Range, message: string, severity: Severity, source: string)

  /** A diagnostic collection: the diagnostics published per document uri. */
  type DiagnosticCollection = map<string, seq<Diagnostic>>

  const DefaultMessage: string := "Not covered by flow"
  const DiagnosticSource: string := "Type Coverage"

  /** The status summary. Nothing is shown without an active document or
      while disconnected; a first computation shows "computing" without a
      percentage; a known result shows its percentage, flagged as computing
      while a recomputation is pending; otherwise nothing is shown. */
  function RenderCoverage(st: State): (r: Option<CoverageStatus>)
    ensures st.activeDocument.None? || !st.isConnected ==> r.None?
    ensures st.activeDocument.Some? && st.isConnected && st.coverage.None? && st.pendingRequest.Some? ==>
              r == Some(CoverageStatus(true, None, st.showUncovered))
    ensures st.activeDocument.Some? && st.isConnected && st.coverage.Some? ==>
              r == Some(CoverageStatus(st.pendingRequest.Some?, Some(st.coverage.value.coveredPercent), st.showUncovered))
    ensures st.coverage.None? && st.pendingRequest.None? ==> r.None?
  {
    if st.activeDocument.Some? && st.isConnected && st.coverage.None? && st.pendingRequest.Some? then
      Some(CoverageStatus(true, None, st.showUncovered))
    else if st.activeDocument.Some? && st.isConnected && st.coverage.Some? then
      Some(CoverageStatus(st.pendingRequest.Some?, Some(st.coverage.value.coveredPercent), st.showUncovered))
    else
      None
  }

  /** `uncoveredRangeToDiagnostic`: an informational diagnostic over the
      same range, carrying the range's message, or the default message when
      the range has none or an empty one (JavaScript's `||` treats the empty
      string as missing). */
  function UncoveredRangeToDiagnostic(u: UncoveredRange): (d: Diagnostic)
    ensures d.range == u.range
    ensures u.message.Some? && u.message.value != "" ==> d.message == u.message.value
    ensures u.message.None? || u.message == Some("") ==> d.message == DefaultMessage
    ensures d.message != ""
    ensures d.severity == Information && d.source == DiagnosticSource
  {
    var message := if u.message.Some? && u.message.value != "" then u.message.value else DefaultMessage;
    Diagnostic(u.range, message, Information, DiagnosticSource)
  }

  /** Whether `_renderDiagnostics` publishes anything for this state. */
  predicate ShowsDiagnostics(st: State) {
    && st.showUncovered
    && st.activeDocument.Some?
    && st.pendingRequest.None?
    && st.coverage.Some?
    && |st.coverage.value.uncoveredRanges| > 0
  }

  /** `_renderDiagnostics`: the collection `before` is cleared first, then,
      if the state calls for it, one diagnostic per uncovered range, in
      order, is published for the active document's uri. */
  function RenderDiagnostics(st: State, before: DiagnosticCollection): (r: DiagnosticCollection)
    ensures !st.showUncovered || st.activeDocument.None? || st.pendingRequest.Some? ==> r == map[]
    ensures st.coverage.None? || |st.coverage.value.uncoveredRanges| == 0 ==> r == map[]
    ensures ShowsDiagnostics(st) ==>
              var uri := st.activeDocument.value.uri;
              var ranges := st.coverage.value.uncoveredRanges;
              && r.Keys == {uri}
              && |r[uri]| == |ranges|
              && (forall i :: 0 <= i < |ranges| ==> r[uri][i] == UncoveredRangeToDiagnostic(ranges[i]))
  {
    var cleared: DiagnosticCollection := map[];
    if !ShowsDiagnostics(st) then
      cleared
    else
      var ranges := st.coverage.value.uncoveredRanges;
      cleared[st.activeDocument.value.uri := seq(|ranges|, i requires 0 <= i < |ranges| => UncoveredRangeToDiagnostic(ranges[i]))]
  }

  /** Both views, as `render` pushes them. */
  datatype View = View(status: Option<CoverageStatus>, diagnostics: DiagnosticCollection)

  function RenderView(st: State, before: DiagnosticCollection): View {
    View(RenderCoverage(st), RenderDiagnostics(st, before))
  }
}
