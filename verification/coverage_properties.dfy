/** Properties of the type-coverage controller that relate several events or
    an event and the views: the invariant every reachable controller keeps,
    the conditions under which a superseded request can never apply, and the
    runs in which the code as written lets a dropped request apply anyway. */
module CoverageProperties {
  import opened CoverageTypes
  import opened CancellableRequest
  import opened TypeCoverage
  import opened Render

  /** What holds of every controller reachable from construction: the
      pending request was started for the active document and has not been
      cancelled (it may have settled, if its computation was rejected), and
      the active document is always one the selector accepts. */
  predicate Inv(c: Controller, eligible: Selector) {
    && Valid(c.requests)
    && (c.state.pendingRequest.Some? ==>
          && Started(c.requests, c.state.pendingRequest.value)
          && c.state.pendingRequest.value !in c.requests.cancelled
          && c.state.activeDocument == Some(c.requests.targets[c.state.pendingRequest.value]))
    && (c.state.activeDocument.Some? ==> eligible(c.state.activeDocument.value))
  }

  lemma StepKeepsInv(c: Controller, eligible: Selector, ev: Event)
    requires Inv(c, eligible)
    ensures Inv(Step(c, eligible, ev), eligible)
  {
  }

  lemma {:induction false} RunKeepsInv(c: Controller, eligible: Selector, evs: seq<Event>)
    requires Inv(c, eligible)
    ensures Inv(Run(c, eligible, evs), eligible)
    decreases |evs|
  {
    if |evs| > 0 {
      StepKeepsInv(c, eligible, evs[0]);
      RunKeepsInv(Step(c, eligible, evs[0]), eligible, evs[1..]);
    }
  }

  /** Every controller reachable from construction keeps the invariant. */
  lemma ReachableKeepsInv(showUncovered: bool, eligible: Selector, editorDocument: Option<Document>, evs: seq<Event>)
    ensures Inv(Run(Initial(showUncovered, eligible, editorDocument), eligible, evs), eligible)
  {
    RunKeepsInv(Initial(showUncovered, eligible, editorDocument), eligible, evs);
  }

  /** A shown status says "computing" exactly while a request is pending,
      and that request was started for the document the status is about and
      has not been cancelled. */
  lemma ComputingMeansRequestForActiveDocument(c: Controller, eligible: Selector)
    requires Inv(c, eligible)
    requires RenderCoverage(c.state).Some?
    ensures RenderCoverage(c.state).value.computing <==> c.state.pendingRequest.Some?
    ensures RenderCoverage(c.state).value.computing ==>
              var k := c.state.pendingRequest.value;
              && Started(c.requests, k)
              && k !in c.requests.cancelled
              && Some(c.requests.targets[k]) == c.state.activeDocument
  {
  }

  /* ---------- cancellation survives every later event ---------- */

  lemma StepKeepsCancelledAndSettled(c: Controller, eligible: Selector, ev: Event)
    ensures c.requests.cancelled <= Step(c, eligible, ev).requests.cancelled
    ensures c.requests.settled <= Step(c, eligible, ev).requests.settled
  {
  }

  lemma {:induction false} RunKeepsCancelledAndSettled(c: Controller, eligible: Selector, evs: seq<Event>)
    ensures c.requests.cancelled <= Run(c, eligible, evs).requests.cancelled
    ensures c.requests.settled <= Run(c, eligible, evs).requests.settled
    decreases |evs|
  {
    if |evs| > 0 {
      StepKeepsCancelledAndSettled(c, eligible, evs[0]);
      RunKeepsCancelledAndSettled(Step(c, eligible, evs[0]), eligible, evs[1..]);
    }
  }

  /** No stale apply, for requests superseded by a new computation: once a
      computation starts while request `k` is pending, `k` is cancelled, and
      its settlement, whenever it comes after any further events, leaves the
      state unchanged. */
  lemma SupersededRequestNeverApplies(c: Controller, eligible: Selector, doc: Document, evs: seq<Event>, s: Settlement)
    requires c.state.pendingRequest.Some?
    requires !SkipsComputation(c.state, eligible, Some(doc))
    ensures var later := Run(ComputeCoverage(c, eligible, Some(doc)), eligible, evs);
            CompleteRequest(later, c.state.pendingRequest.value, s).state == later.state
  {
    var k := c.state.pendingRequest.value;
    RunKeepsCancelledAndSettled(ComputeCoverage(c, eligible, Some(doc)), eligible, evs);
    assert k in Run(ComputeCoverage(c, eligible, Some(doc)), eligible, evs).requests.cancelled;
  }

  /** A request settled once never applies again: a second settlement of the
      same id, after any further events, leaves the state unchanged. */
  lemma SettledRequestNeverAppliesAgain(c: Controller, eligible: Selector, k: RequestId, s1: Settlement, evs: seq<Event>, s2: Settlement)
    requires Started(c.requests, k)
    ensures var later := Run(CompleteRequest(c, k, s1), eligible, evs);
            CompleteRequest(later, k, s2).state == later.state
  {
    RunKeepsCancelledAndSettled(CompleteRequest(c, k, s1), eligible, evs);
  }

  /** `dispose` cancels the pending request: its settlement no longer
      changes the state. */
  lemma DisposedRequestNeverApplies(c: Controller, s: Settlement)
    requires c.state.pendingRequest.Some?
    ensures CompleteRequest(Controller(c.state, Dispose(c)), c.state.pendingRequest.value, s).state == c.state
  {
  }

  /* ---------- single flight, where the code keeps it ---------- */

  /** At most one request is live, and it is the pending one. */
  ghost predicate SingleFlight(c: Controller) {
    forall k: RequestId :: Live(c.requests, k) ==> c.state.pendingRequest == Some(k)
  }

  /** The event reaches the skipping branch of `_computeCoverage` while a
      request is pending, which forgets that request without cancelling it. */
  predicate DropsPending(c: Controller, eligible: Selector, ev: Event) {
    && c.state.pendingRequest.Some?
    && match ev
       case DocumentSaved(doc) => SkipsComputation(c.state, eligible, Some(doc))
       case ActiveEditorChanged(editorDocument) => SkipsComputation(c.state, eligible, editorDocument)
       case ConnectionStatusChanged(connected, editorDocument) =>
         connected && editorDocument.Some? && !eligible(editorDocument.value)
       case _ => false
  }

  /** No event of the run drops a pending request. */
  predicate NeverDrops(c: Controller, eligible: Selector, evs: seq<Event>)
    decreases |evs|
  {
    |evs| == 0 || (!DropsPending(c, eligible, evs[0]) && NeverDrops(Step(c, eligible, evs[0]), eligible, evs[1..]))
  }

  lemma StepKeepsSingleFlight(c: Controller, eligible: Selector, ev: Event)
    requires SingleFlight(c)
    requires !DropsPending(c, eligible, ev)
    ensures SingleFlight(Step(c, eligible, ev))
  {
  }

  lemma {:induction false} RunKeepsSingleFlight(c: Controller, eligible: Selector, evs: seq<Event>)
    requires SingleFlight(c)
    requires NeverDrops(c, eligible, evs)
    ensures SingleFlight(Run(c, eligible, evs))
    decreases |evs|
  {
    if |evs| > 0 {
      StepKeepsSingleFlight(c, eligible, evs[0]);
      RunKeepsSingleFlight(Step(c, eligible, evs[0]), eligible, evs[1..]);
    }
  }

  /** A freshly constructed controller has no live request. */
  lemma InitialIsSingleFlight(showUncovered: bool, eligible: Selector, editorDocument: Option<Document>)
    ensures SingleFlight(Initial(showUncovered, eligible, editorDocument))
  {
  }

  /** From construction, at most one request is live, and it is the pending
      one, along every run in which no event drops a pending request. */
  lemma ReachableSingleFlight(showUncovered: bool, eligible: Selector, editorDocument: Option<Document>, evs: seq<Event>)
    requires NeverDrops(Initial(showUncovered, eligible, editorDocument), eligible, evs)
    ensures SingleFlight(Run(Initial(showUncovered, eligible, editorDocument), eligible, evs))
  {
    InitialIsSingleFlight(showUncovered, eligible, editorDocument);
    RunKeepsSingleFlight(Initial(showUncovered, eligible, editorDocument), eligible, evs);
  }

  /** Under single flight, only the pending request can change the state
      when it settles. */
  lemma OnlyPendingRequestApplies(c: Controller, k: RequestId, s: Settlement)
    requires SingleFlight(c)
    requires c.state.pendingRequest != Some(k)
    ensures CompleteRequest(c, k, s).state == c.state
  {
  }

  /* ---------- where the code as written lets stale results through ---------- */

  /** Two documents the selector accepts, one it rejects, and the selector. */
  const DocA: Document := Document(0, "file:///a.js")
  const DocB: Document := Document(1, "file:///b.txt")
  const DocC: Document := Document(2, "file:///c.js")

  function AcceptsAllButB(d: Document): bool {
    d != DocB
  }

  /** The skipping branch does not cancel: activating an eligible document,
      then an ineligible one, then the eligible one again leaves two live
      requests. When the newer one settles first and the dropped one second,
      the dropped request's older result overwrites the newer coverage. */
  lemma DroppedRequestOverwritesNewerCoverage(older: CoverageResult, newer: CoverageResult)
    ensures var c0 := Initial(false, AcceptsAllButB, None);
            var c1 := Step(c0, AcceptsAllButB, ConnectionStatusChanged(true, None));
            var c2 := Step(c1, AcceptsAllButB, ActiveEditorChanged(Some(DocA)));
            var c3 := Step(c2, AcceptsAllButB, ActiveEditorChanged(Some(DocB)));
            var c4 := Step(c3, AcceptsAllButB, ActiveEditorChanged(Some(DocA)));
            var c5 := Step(c4, AcceptsAllButB, RequestSettled(1, Resolved(Some(newer))));
            var c6 := Step(c5, AcceptsAllButB, RequestSettled(0, Resolved(Some(older))));
            && Live(c4.requests, 0) && Live(c4.requests, 1)
            && !SingleFlight(c4)
            && c5.state.coverage == Some(newer)
            && c6.state.activeDocument == Some(DocA)
            && c6.state.coverage == Some(older)
  {
  }

  /** Coverage need not belong to the active document. A request for A is
      pending when the backend disconnects; activating C while disconnected
      drops that request without cancelling it; reconnecting starts a request
      for C. When A's request settles first, A's result becomes C's coverage:
      the status shows A's percentage as final and A's ranges are published
      under C's uri, while C's own request is still live. */
  lemma OtherDocumentsCoverageLandsOnActive(range: Range)
    ensures var resultA := CoverageResult(60, [UncoveredRange(range, None)]);
            var c0 := Initial(true, AcceptsAllButB, None);
            var c1 := Step(c0, AcceptsAllButB, ConnectionStatusChanged(true, None));
            var c2 := Step(c1, AcceptsAllButB, ActiveEditorChanged(Some(DocA)));
            var c3 := Step(c2, AcceptsAllButB, ConnectionStatusChanged(false, None));
            var c4 := Step(c3, AcceptsAllButB, ActiveEditorChanged(Some(DocC)));
            var c5 := Step(c4, AcceptsAllButB, ConnectionStatusChanged(true, Some(DocC)));
            var c6 := Step(c5, AcceptsAllButB, RequestSettled(0, Resolved(Some(resultA))));
            && c2.requests.targets[0] == DocA
            && c5.requests.targets[1] == DocC && c5.state.pendingRequest == Some(1)
            && c6.state.activeDocument == Some(DocC)
            && c6.state.coverage == Some(resultA)
            && Live(c6.requests, 1)
            && RenderCoverage(c6.state) == Some(CoverageStatus(false, Some(60), true))
            && RenderDiagnostics(c6.state, map[])
                 == map[DocC.uri := [Diagnostic(range, DefaultMessage, Information, DiagnosticSource)]]
  {
    var resultA := CoverageResult(60, [UncoveredRange(range, None)]);
    var c0 := Initial(true, AcceptsAllButB, None);
    var c1 := Step(c0, AcceptsAllButB, ConnectionStatusChanged(true, None));
    var c2 := Step(c1, AcceptsAllButB, ActiveEditorChanged(Some(DocA)));
    var c3 := Step(c2, AcceptsAllButB, ConnectionStatusChanged(false, None));
    var c4 := Step(c3, AcceptsAllButB, ActiveEditorChanged(Some(DocC)));
    assert Live(c4.requests, 0) && c4.state.activeDocument.None?;
    var c5 := Step(c4, AcceptsAllButB, ConnectionStatusChanged(true, Some(DocC)));
    var c6 := Step(c5, AcceptsAllButB, RequestSettled(0, Resolved(Some(resultA))));
    assert RenderDiagnostics(c6.state, map[])[DocC.uri] == [Diagnostic(range, DefaultMessage, Information, DiagnosticSource)];
  }

  /** A whole session: the backend connects, document A is activated and its
      result (87 percent, one range with a message) arrives while uncovered
      code is shown, so the status and one diagnostic appear. A is saved
      again and the backend disconnects before the second result arrives:
      the state is not cleared, the status disappears, and when the second
      result arrives it still applies and its diagnostic is published for A
      although the backend is disconnected. */
  lemma SessionAcrossDisconnect(range: Range)
    ensures var result := CoverageResult(87, [UncoveredRange(range, Some("any type"))]);
            var c0 := Initial(true, AcceptsAllButB, None);
            var c1 := Step(c0, AcceptsAllButB, ConnectionStatusChanged(true, None));
            var c2 := Step(c1, AcceptsAllButB, ActiveEditorChanged(Some(DocA)));
            var c3 := Step(c2, AcceptsAllButB, RequestSettled(0, Resolved(Some(result))));
            var c4 := Step(c3, AcceptsAllButB, DocumentSaved(DocA));
            var c5 := Step(c4, AcceptsAllButB, ConnectionStatusChanged(false, Some(DocA)));
            var c6 := Step(c5, AcceptsAllButB, RequestSettled(1, Resolved(Some(result))));
            var diagnostic := Diagnostic(range, "any type", Information, DiagnosticSource);
            && RenderCoverage(c3.state) == Some(CoverageStatus(false, Some(87), true))
            && RenderDiagnostics(c3.state, map[]) == map[DocA.uri := [diagnostic]]
            && RenderCoverage(c4.state) == Some(CoverageStatus(true, Some(87), true))
            && RenderDiagnostics(c4.state, map[]) == map[]
            && c5.state.activeDocument == Some(DocA) && c5.state.pendingRequest == Some(1)
            && RenderCoverage(c5.state).None?
            && c6.state.coverage == Some(result)
            && RenderCoverage(c6.state).None?
            && RenderDiagnostics(c6.state, map[]) == map[DocA.uri := [diagnostic]]
  {
    var result := CoverageResult(87, [UncoveredRange(range, Some("any type"))]);
    var c0 := Initial(true, AcceptsAllButB, None);
    var c1 := Step(c0, AcceptsAllButB, ConnectionStatusChanged(true, None));
    var c2 := Step(c1, AcceptsAllButB, ActiveEditorChanged(Some(DocA)));
    assert c2.state.pendingRequest == Some(0) && Live(c2.requests, 0);
    var c3 := Step(c2, AcceptsAllButB, RequestSettled(0, Resolved(Some(result))));
    assert c3.state.coverage == Some(result) && c3.state.pendingRequest.None?;
    var diagnostic := Diagnostic(range, "any type", Information, DiagnosticSource);
    assert RenderDiagnostics(c3.state, map[])[DocA.uri] == [diagnostic];
    var c4 := Step(c3, AcceptsAllButB, DocumentSaved(DocA));
    assert c4.state.pendingRequest == Some(1) && Live(c4.requests, 1);
    var c5 := Step(c4, AcceptsAllButB, ConnectionStatusChanged(false, Some(DocA)));
    var c6 := Step(c5, AcceptsAllButB, RequestSettled(1, Resolved(Some(result))));
    assert RenderDiagnostics(c6.state, map[])[DocA.uri] == [diagnostic];
  }

  /** Disconnecting clears nothing: a request pending at that moment still
      applies its result afterwards, while the status shows nothing. */
  lemma PendingRequestAppliesAfterDisconnect(c: Controller, eligible: Selector, editorDocument: Option<Document>, result: Option<CoverageResult>)
    requires Inv(c, eligible)
    requires c.state.pendingRequest.Some? && Live(c.requests, c.state.pendingRequest.value)
    ensures var d := HandleConnectionStatus(c, eligible, false, editorDocument);
            var r := CompleteRequest(d, c.state.pendingRequest.value, Resolved(result));
            && d.state.activeDocument == c.state.activeDocument
            && r.state.activeDocument == c.state.activeDocument
            && r.state.coverage == result
            && r.state.pendingRequest.None?
            && RenderCoverage(r.state).None?
  {
  }

  /** The diagnostics view never consults the connection: disconnecting
      hides the status but leaves the published diagnostics as they were. */
  lemma DiagnosticsIgnoreConnection(st: State, before: DiagnosticCollection)
    requires st.isConnected
    ensures RenderCoverage(st.(isConnected := false)).None?
    ensures RenderDiagnostics(st.(isConnected := false), before) == RenderDiagnostics(st, before)
  {
  }

  /** A rejected computation never reaches the callback: the request stays
      pending, so the status keeps showing "computing" and diagnostics stay
      suppressed until the next event. */
  lemma RejectedRequestStaysPending(c: Controller, eligible: Selector, before: DiagnosticCollection)
    requires Inv(c, eligible)
    requires c.state.pendingRequest.Some?
    ensures var r := CompleteRequest(c, c.state.pendingRequest.value, Rejected);
            && r.state == c.state
            && !Live(r.requests, c.state.pendingRequest.value)
            && RenderDiagnostics(r.state, before) == map[]
            && (c.state.isConnected ==> RenderCoverage(r.state).Some? && RenderCoverage(r.state).value.computing)
  {
  }

  /* ---------- views across events ---------- */

  /** Toggling twice restores the state, and with it both views. */
  lemma ToggleTwiceRestores(st: State, before: DiagnosticCollection)
    ensures ToggleShowUncovered(ToggleShowUncovered(st)) == st
    ensures RenderView(ToggleShowUncovered(ToggleShowUncovered(st)), before) == RenderView(st, before)
  {
  }

  /** Toggling changes the status only in its `showingUncovered` flag. */
  lemma ToggleOnlyFlipsShowingUncovered(st: State)
    ensures RenderCoverage(ToggleShowUncovered(st)).Some? <==> RenderCoverage(st).Some?
    ensures RenderCoverage(st).Some? ==>
              RenderCoverage(ToggleShowUncovered(st)).value
                == RenderCoverage(st).value.(showingUncovered := !st.showUncovered)
  {
  }

  /** Right after a different document is activated, the status shows
      "computing" without a percentage and no diagnostics are published.
      This lasts only until some request settles, which need not be the new
      document's own (see `OtherDocumentsCoverageLandsOnActive`). */
  lemma SwitchingDocumentShowsComputing(c: Controller, eligible: Selector, doc: Document, before: DiagnosticCollection)
    requires !SkipsComputation(c.state, eligible, Some(doc))
    requires c.state.activeDocument != Some(doc)
    ensures var r := ComputeCoverage(c, eligible, Some(doc));
            && RenderCoverage(r.state) == Some(CoverageStatus(true, None, c.state.showUncovered))
            && RenderDiagnostics(r.state, before) == map[]
  {
  }

  /** Re-saving the active document keeps showing its last percentage,
      flagged as computing, and hides its diagnostics while recomputing. */
  lemma ResavingKeepsPercent(c: Controller, eligible: Selector, before: DiagnosticCollection)
    requires c.state.activeDocument.Some? && c.state.coverage.Some?
    requires !SkipsComputation(c.state, eligible, c.state.activeDocument)
    ensures var r := Step(c, eligible, DocumentSaved(c.state.activeDocument.value));
            && RenderCoverage(r.state)
                 == Some(CoverageStatus(true, Some(c.state.coverage.value.coveredPercent), c.state.showUncovered))
            && RenderDiagnostics(r.state, before) == map[]
  {
  }

  /** When diagnostics are published and the backend is connected, the
      status shows the same result as final, with uncovered code shown. */
  lemma PublishedDiagnosticsMatchStatus(st: State, before: DiagnosticCollection)
    requires st.isConnected
    requires RenderDiagnostics(st, before) != map[]
    ensures st.coverage.Some?
    ensures RenderCoverage(st) == Some(CoverageStatus(false, Some(st.coverage.value.coveredPercent), true))
  {
  }
}
