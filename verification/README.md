# Type coverage for the active editor document

A Dafny model of the type-coverage feature of the Flow extension for VS Code
(`lib/flowLSP/features/TypeCoverage/TypeCoverage.js`). The feature tracks the
type coverage of the single active editor document: the percentage of code
the Flow backend could type and the ranges it could not. It keeps two views
consistent with that state: the status-bar widget and a diagnostic collection
named `flow_coverage`.

The model has five modules:

- `CoverageTypes` (`coverage_types.dfy`): documents, ranges, uncovered ranges
  and coverage results. A document's identity is an abstract handle.
- `CancellableRequest` (`cancellable_request.dfy`): the request returned by
  `requestTypeCoverage`. Every request gets a fresh natural-number id. One
  table records the document each id was started for, the cancelled ids and
  the ids whose promise has settled. Settlement is an explicit environment
  event that carries the id. The callback fires for a settlement only if the
  request resolved, was not cancelled and had not settled before.
- `TypeCoverage` (`type_coverage.dfy`): the `State` record and one pure
  transition per event. The events are the `flow.show-coverage` command, a
  save, a change of active editor, a connection-status change and a request
  settlement. It also models construction and `dispose`. `Step` and `Run`
  replay events in order.
- `Render` (`render.dfy`): `_renderCoverage`, `_renderDiagnostics` and
  `uncoveredRangeToDiagnostic`, as pure functions of the state.
- `CoverageProperties` (`coverage_properties.dfy`): an invariant of every
  reachable controller, cancellation and settlement surviving later events,
  single flight where the code keeps it, and concrete runs showing where it
  does not.

The document selector is an abstract predicate `Selector = Document -> bool`
that stands in for `vscode.languages.match`.

### Behaviour as written

The model follows the code. In four places the code does less than the
feature's intended "latest activation wins, failure means no coverage"
behaviour:

- The skipping branch of `_computeCoverage` (no document, an ineligible
  document, or disconnected) sets `pendingRequest` to `null` without calling
  `cancel()`. The dropped request stays live and can still overwrite
  `coverage` and clear `pendingRequest`. `DroppedRequestOverwritesNewerCoverage`
  shows a run where an older result replaces a newer one. So `coverage` need
  not belong to the active document: in `OtherDocumentsCoverageLandsOnActive`
  a request for A, dropped while disconnected, settles after C became active.
  The status then shows A's percentage as final, and A's ranges are published
  under C's uri.
- Disconnecting only sets `isConnected` to false. The document, coverage and
  pending request all stay (`PendingRequestAppliesAfterDisconnect`,
  `SessionAcrossDisconnect`).
- `_renderDiagnostics` never reads `isConnected`. Diagnostics stay published
  while disconnected (`DiagnosticsIgnoreConnection`).
- `requestTypeCoverage` attaches only a fulfilment handler. A rejected
  computation never calls back, so `pendingRequest` stays set and the status
  keeps saying "computing" (`RejectedRequestStaysPending`). The intended
  behaviour was to treat a failed computation as "no coverage".

So "no stale apply" is proved for requests superseded through the cancel at
lines 158-160 (`SupersededRequestNeverApplies`). Single flight is proved for
runs in which no event reaches the skipping branch while a request is pending
(`RunKeepsSingleFlight`, `ReachableSingleFlight`).

## Model

| member | source | states |
|---|---|---|
| `CancellableRequest.Start` | lib/flowLSP/features/TypeCoverage/TypeCoverage.js:184-202 | A started request has an id never used before, is live, and was started for the given document; earlier requests keep their target and status |
| `CancellableRequest.Cancel` | lib/flowLSP/features/TypeCoverage/TypeCoverage.js:197-201 | After `cancel` the request can no longer deliver; no other request changes status |
| `CancellableRequest.Settle` | lib/flowLSP/features/TypeCoverage/TypeCoverage.js:189-195 | The callback fires exactly when the request is live and its promise resolved, with the resolved result (absent result as `null`); afterwards the request is no longer live |
| `CancellableRequest.CancelIdempotent` | lib/flowLSP/features/TypeCoverage/TypeCoverage.js:197-201 | Cancelling twice equals cancelling once |
| `CancellableRequest.SettleAtMostOnce` | lib/flowLSP/features/TypeCoverage/TypeCoverage.js:191-195 | Once a request has settled, a second settlement delivers nothing and changes nothing |
| `CancellableRequest.NoDeliveryAfterCancel` | lib/flowLSP/features/TypeCoverage/TypeCoverage.js:189-200 | A cancelled request never delivers, however its promise settles |
| `TypeCoverage.ToggleShowUncovered` | lib/flowLSP/features/TypeCoverage/TypeCoverage.js:49-51 | The command flips `showUncovered` and leaves every other field unchanged |
| `TypeCoverage.ComputeCoverage` | lib/flowLSP/features/TypeCoverage/TypeCoverage.js:144-177 | Skipping branch: document, pending request and coverage become null, nothing is cancelled, preference and connection unchanged. Otherwise: the previous pending request is cancelled, a fresh live request for the document becomes pending, the document becomes active, coverage survives iff the document was already active |
| `TypeCoverage.HandleConnectionStatus` | lib/flowLSP/features/TypeCoverage/TypeCoverage.js:137-142 | Disconnecting (or connecting with no editor) changes only `isConnected`; connecting with an eligible editor document makes it active with a fresh pending request, cancels the previous pending request, and keeps the coverage from before the disconnect iff that document was already active (else resets it); with an ineligible one clears the state |
| `TypeCoverage.CompleteRequest` | lib/flowLSP/features/TypeCoverage/TypeCoverage.js:165-167 | A delivered result clears `pendingRequest` and sets `coverage` to the result and touches nothing else; an undelivered settlement leaves the state unchanged |
| `TypeCoverage.Initial` | lib/flowLSP/features/TypeCoverage/TypeCoverage.js:27-61 | Construction yields the configured preference with everything else empty and disconnected, and starts no request even when an editor is open |
| `TypeCoverage.Dispose` | lib/flowLSP/features/TypeCoverage/TypeCoverage.js:64-69 | `dispose` leaves the pending request unable to deliver and changes no other request |
| `Render.RenderCoverage` | lib/flowLSP/features/TypeCoverage/TypeCoverage.js:76-106 | Status is null without an active document or while disconnected; "computing, no percent" for a first computation; the result's percent with `computing` iff a request is pending; null when there is neither result nor request |
| `Render.UncoveredRangeToDiagnostic` | lib/flowLSP/features/TypeCoverage/TypeCoverage.js:204-214 | Same range, the range's message when present and non-empty, else "Not covered by flow"; never an empty message; severity Information, source "Type Coverage" |
| `Render.RenderDiagnostics` | lib/flowLSP/features/TypeCoverage/TypeCoverage.js:108-127 | The collection is cleared regardless of its previous contents; nothing is published when uncovered code is hidden, without an active document, while a request is pending, or without ranges; otherwise exactly one diagnostic per range, in order, for the active document's uri |
| `CoverageProperties.StepKeepsInv` | lib/flowLSP/features/TypeCoverage/TypeCoverage.js:144-177 | Every event preserves: the pending request was started for the active document and is not cancelled, and the active document is eligible |
| `CoverageProperties.RunKeepsInv` | lib/flowLSP/features/TypeCoverage/TypeCoverage.js:129-177 | Any sequence of events preserves the invariant |
| `CoverageProperties.ReachableKeepsInv` | lib/flowLSP/features/TypeCoverage/TypeCoverage.js:27-61 | Every controller reachable from construction satisfies the invariant |
| `CoverageProperties.ComputingMeansRequestForActiveDocument` | lib/flowLSP/features/TypeCoverage/TypeCoverage.js:80-99 | A shown status says computing iff a request is pending, and that request is an uncancelled one for the shown document |
| `CoverageProperties.StepKeepsCancelledAndSettled` | lib/flowLSP/features/TypeCoverage/TypeCoverage.js:158-167 | No event un-cancels or un-settles a request |
| `CoverageProperties.RunKeepsCancelledAndSettled` | lib/flowLSP/features/TypeCoverage/TypeCoverage.js:184-202 | Cancellation and settlement persist across any sequence of events |
| `CoverageProperties.SupersededRequestNeverApplies` | lib/flowLSP/features/TypeCoverage/TypeCoverage.js:158-167 | A request pending when a new computation starts never changes the state when it settles, after any further events |
| `CoverageProperties.SettledRequestNeverAppliesAgain` | lib/flowLSP/features/TypeCoverage/TypeCoverage.js:191-195 | A request's second settlement, after any further events, never changes the state |
| `CoverageProperties.DisposedRequestNeverApplies` | lib/flowLSP/features/TypeCoverage/TypeCoverage.js:64-69 | After `dispose`, the pending request's settlement leaves the state unchanged |
| `CoverageProperties.StepKeepsSingleFlight` | lib/flowLSP/features/TypeCoverage/TypeCoverage.js:144-177 | An event that does not drop a pending request preserves "the only live request is the pending one" |
| `CoverageProperties.RunKeepsSingleFlight` | lib/flowLSP/features/TypeCoverage/TypeCoverage.js:158-167 | Single flight holds along every run in which no event drops a pending request |
| `CoverageProperties.InitialIsSingleFlight` | lib/flowLSP/features/TypeCoverage/TypeCoverage.js:27-33 | A freshly constructed controller has no live request |
| `CoverageProperties.ReachableSingleFlight` | lib/flowLSP/features/TypeCoverage/TypeCoverage.js:144-177 | From construction, at most one request is live and it is the pending one, along every run in which no event drops a pending request |
| `CoverageProperties.OnlyPendingRequestApplies` | lib/flowLSP/features/TypeCoverage/TypeCoverage.js:165-167 | Under single flight, the settlement of any request other than the pending one leaves the state unchanged |
| `CoverageProperties.DroppedRequestOverwritesNewerCoverage` | lib/flowLSP/features/TypeCoverage/TypeCoverage.js:145-167 | Eligible, ineligible, eligible activation leaves two live requests; the newer result arrives, then the dropped request's older result replaces it |
| `CoverageProperties.OtherDocumentsCoverageLandsOnActive` | lib/flowLSP/features/TypeCoverage/TypeCoverage.js:145-167 | A request for A dropped while disconnected settles after C became active: C gets A's result as final coverage, and A's ranges are published under C's uri while C's request is still live |
| `CoverageProperties.SessionAcrossDisconnect` | lib/flowLSP/features/TypeCoverage/TypeCoverage.js:137-142 | In a concrete session, disconnecting during a recomputation keeps the state, hides the status, and the late result still applies and republishes its diagnostic |
| `CoverageProperties.PendingRequestAppliesAfterDisconnect` | lib/flowLSP/features/TypeCoverage/TypeCoverage.js:137-142 | Disconnecting keeps the active document; a live pending request still applies afterwards while the status stays null |
| `CoverageProperties.DiagnosticsIgnoreConnection` | lib/flowLSP/features/TypeCoverage/TypeCoverage.js:108-127 | Disconnecting hides the status but leaves the diagnostics render unchanged |
| `CoverageProperties.RejectedRequestStaysPending` | lib/flowLSP/features/TypeCoverage/TypeCoverage.js:191-195 | A rejected computation leaves the state unchanged: still pending, status computing when connected, no diagnostics |
| `CoverageProperties.ToggleTwiceRestores` | lib/flowLSP/features/TypeCoverage/TypeCoverage.js:49-51 | Toggling twice restores the state and both views |
| `CoverageProperties.ToggleOnlyFlipsShowingUncovered` | lib/flowLSP/features/TypeCoverage/TypeCoverage.js:76-106 | Toggling changes the status only in its `showingUncovered` flag |
| `CoverageProperties.SwitchingDocumentShowsComputing` | lib/flowLSP/features/TypeCoverage/TypeCoverage.js:170-176 | Right after a different document is activated, the status shows "computing, no percent" and no diagnostics are published |
| `CoverageProperties.ResavingKeepsPercent` | lib/flowLSP/features/TypeCoverage/TypeCoverage.js:173-175 | Re-saving the active document keeps its last percent, flagged computing, with diagnostics hidden |
| `CoverageProperties.PublishedDiagnosticsMatchStatus` | lib/flowLSP/features/TypeCoverage/TypeCoverage.js:108-127 | When diagnostics are published while connected, the status shows the same result as final with uncovered code shown |

## Left out

- VS Code plumbing is not modelled. This covers `createDiagnosticCollection`, `registerCommand` and the save and active-editor subscriptions. These become the `Event` constructors. `vscode.window.activeTextEditor` becomes the `editorDocument` parameter.
- `vscode.languages.match` and document-selector semantics: replaced by the abstract `Selector` predicate.
- Promise and microtask scheduling: a settlement is an environment event carrying a request id. The source's `then` never runs synchronously, so the state update at lines 170-176 always precedes any settlement.
- A provider call that throws synchronously inside `requestTypeCoverage` is not modelled. It would propagate out of `_computeCoverage`.
- `TypeCoverageProvider` transport and `StatusBarWidget` drawing: only the value passed to `setCoverage` is modelled. `TypeCoverageProvider` and `StatusBarWidget` are not part of this model.
- `TypeCoverage.Initial`: assumes that subscribing at line 47 does not deliver a connection status synchronously. `TypeCoverageProvider` is not part of this model, so its subscription timing is unknown. If it did deliver one, construction could start a request.
- `shouldShowUncoveredCode()`: the initial preference is a parameter of `Initial`.
- `dispose` releasing the diagnostic collection: only the cancellation of the pending request is modelled.
- Intermediate renders: `_handleConnectionStatus` renders once after recording the flag and again after recomputing. Only the views of the final state of each event are modelled, because each render overwrites both views.
- `coveredPercent` is a floating-point number in the source; here it is an opaque integer.
- Ranges are copied, never inspected, so `Range` carries positions without any ordering constraint.
