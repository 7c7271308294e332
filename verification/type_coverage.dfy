/** The controller of the type-coverage feature: one state record for the
    single active editor document, and one transition per event the editor,
    the backend connection and the request callbacks deliver.

    The source mutates `this.state` through a shallow merge (`_setState`) and
    re-renders after every merge. Here each handler is a pure function from
    the controller before the event to the controller after it; the views are
    pure projections of the resulting state (module `Render`).

    The document selector is an abstract eligibility predicate, standing in
    for `vscode.languages.match`. */
module TypeCoverage {
  import opened CoverageTypes
  import opened CancellableRequest

  /** The source's `State` record; `pendingRequest` holds the id of the
      request whose handle the source keeps. */
  datatype State = State(
    showUncovered: bool,
    activeDocument: Option<Document>,
    coverage: Option<CoverageResult>,
    pendingRequest: Option<RequestId>,
    isConnected: bool)

  /** The controller's state together with every request it has started. */
  datatype Controller = Controller(state: State, requests: Requests)

  /** Whether a document belongs to the feature's document selector. */
  type Selector = Document -> bool

  /** What the host delivers to the controller. `editorDocument` is the
      document of the active text editor, if there is one. */
  datatype Event =
    | ShowCoverageCommand
    | DocumentSaved(document: Document)
    | ActiveEditorChanged(editorDocument: Option<Document>)
    | ConnectionStatusChanged(connected: bool, editorDocument: Option<Document>)
    | RequestSettled(id: RequestId, settlement: Settlement)

  /** The `flow.show-coverage` command: flips the display preference and
      leaves every other field as it was. */
  function ToggleShowUncovered(st: State): (r: State)
    ensures r.showUncovered != st.showUncovered
    ensures r.activeDocument == st.activeDocument && r.coverage == st.coverage
    ensures r.pendingRequest == st.pendingRequest && r.isConnected == st.isConnected
  {
    st.(showUncovered := !st.showUncovered)
  }

  /** The guard of `_computeCoverage`: no computation while disconnected,
      for no document, or for a document outside the selector. */
  predicate SkipsComputation(st: State, eligible: Selector, doc: Option<Document>) {
    !st.isConnected || doc.None? || !eligible(doc.value)
  }

  /** `_computeCoverage`. When the guard holds, the document, the pending
      request and the coverage are cleared, and nothing is cancelled: the
      dropped request stays live. Otherwise the pending request is cancelled,
      a fresh request is started for the document and becomes pending, and
      the coverage survives only if the document is the one already active. */
  function ComputeCoverage(c: Controller, eligible: Selector, doc: Option<Document>): (r: Controller)
    ensures SkipsComputation(c.state, eligible, doc) ==>
              && r.state.activeDocument.None?
              && r.state.pendingRequest.None?
              && r.state.coverage.None?
              && r.state.showUncovered == c.state.showUncovered
              && r.state.isConnected == c.state.isConnected
              && r.requests == c.requests
    ensures !SkipsComputation(c.state, eligible, doc) ==>
              && r.state.activeDocument == doc
              && r.state.pendingRequest == Some(|c.requests.targets|)
              && !Started(c.requests, r.state.pendingRequest.value)
              && r.requests.targets == c.requests.targets + [doc.value]
              && (Valid(c.requests) && (c.state.pendingRequest.Some? ==> Started(c.requests, c.state.pendingRequest.value)) ==>
                    Valid(r.requests) && Live(r.requests, r.state.pendingRequest.value))
              && (c.state.pendingRequest.Some? ==>
                    r.requests.cancelled == c.requests.cancelled + {c.state.pendingRequest.value})
              && (c.state.pendingRequest.None? ==> r.requests.cancelled == c.requests.cancelled)
              && r.requests.settled == c.requests.settled
              && r.state.showUncovered == c.state.showUncovered
              && r.state.isConnected == c.state.isConnected
    ensures !SkipsComputation(c.state, eligible, doc) ==>
              && (c.state.pendingRequest.Some? ==> !Live(r.requests, c.state.pendingRequest.value))
              && forall j: RequestId :: Some(j) != c.state.pendingRequest && Some(j) != r.state.pendingRequest ==>
                   (Live(r.requests, j) <==> Live(c.requests, j))
    ensures !SkipsComputation(c.state, eligible, doc) && c.state.activeDocument == doc ==>
              r.state.coverage == c.state.coverage
    ensures !SkipsComputation(c.state, eligible, doc) && c.state.activeDocument != doc ==>
              r.state.coverage.None?
  {
    var st := c.state;
    if SkipsComputation(st, eligible, doc) then
      Controller(st.(activeDocument := None, pendingRequest := None, coverage := None), c.requests)
    else
      var afterCancel := if st.pendingRequest.Some? then Cancel(c.requests, st.pendingRequest.value) else c.requests;
      var (requests, id) := Start(afterCancel, doc.value);
      var coverage := if st.activeDocument != doc then None else st.coverage;
      Controller(st.(activeDocument := doc, pendingRequest := Some(id), coverage := coverage), requests)
  }

  /** `_handleConnectionStatus`. Disconnecting only records the flag; it
      clears nothing and cancels nothing. Connecting records the flag and,
      when an editor is open, recomputes coverage for its document: the
      previous pending request is cancelled, and the coverage from before the
      disconnect survives when the editor's document is the active one. */
  function HandleConnectionStatus(c: Controller, eligible: Selector, connected: bool, editorDocument: Option<Document>): (r: Controller)
    ensures r.state.isConnected == connected
    ensures r.state.showUncovered == c.state.showUncovered
    ensures !connected || editorDocument.None? ==>
              && r.requests == c.requests
              && r.state.activeDocument == c.state.activeDocument
              && r.state.coverage == c.state.coverage
              && r.state.pendingRequest == c.state.pendingRequest
    ensures connected && editorDocument.Some? && eligible(editorDocument.value) ==>
              && r.state.activeDocument == editorDocument
              && r.state.pendingRequest == Some(|c.requests.targets|)
              && r.requests.targets == c.requests.targets + [editorDocument.value]
              && (c.state.pendingRequest.Some? ==> c.state.pendingRequest.value in r.requests.cancelled)
              && (c.state.activeDocument == editorDocument ==> r.state.coverage == c.state.coverage)
              && (c.state.activeDocument != editorDocument ==> r.state.coverage.None?)
    ensures connected && editorDocument.Some? && !eligible(editorDocument.value) ==>
              && r.state.activeDocument.None?
              && r.state.pendingRequest.None?
              && r.state.coverage.None?
              && r.requests == c.requests
  {
    var recorded := Controller(c.state.(isConnected := connected), c.requests);
    if connected && editorDocument.Some? then
      ComputeCoverage(recorded, eligible, editorDocument)
    else
      recorded
  }

  /** The promise of request `k` settles. When the callback fires, it clears
      the pending request and stores the delivered coverage, whichever
      request is pending at that moment; it touches no other field. */
  function CompleteRequest(c: Controller, k: RequestId, s: Settlement): (r: Controller)
    ensures Live(c.requests, k) && s.Resolved? ==>
              r.state == c.state.(pendingRequest := None, coverage := s.result)
    ensures !(Live(c.requests, k) && s.Resolved?) ==> r.state == c.state
    ensures !Live(r.requests, k)
    ensures r.requests.targets == c.requests.targets && r.requests.cancelled == c.requests.cancelled
    ensures c.requests.settled <= r.requests.settled
    ensures forall j: RequestId :: j != k ==> (Live(r.requests, j) <==> Live(c.requests, j))
  {
    var (requests, delivered) := Settle(c.requests, k, s);
    match delivered
    case None => Controller(c.state, requests)
    case Some(coverage) => Controller(c.state.(pendingRequest := None, coverage := coverage), requests)
  }

  /** Construction: the display preference comes from configuration, all
      else starts empty and disconnected, and the active editor's document
      (if any) goes through `_computeCoverage`. Because the backend starts
      disconnected, that call never starts a request. */
  function Initial(showUncovered: bool, eligible: Selector, editorDocument: Option<Document>): (r: Controller)
    ensures r.state == State(showUncovered, None, None, None, false)
    ensures r.requests == NoRequests
  {
    var c := Controller(State(showUncovered, None, None, None, false), NoRequests);
    if editorDocument.Some? then ComputeCoverage(c, eligible, editorDocument) else c
  }

  /** `dispose`: cancels the pending request, if any, so its callback can no
      longer fire; no other request changes status. */
  function Dispose(c: Controller): (r: Requests)
    ensures c.state.pendingRequest.Some? ==> !Live(r, c.state.pendingRequest.value)
    ensures forall j: RequestId :: Some(j) != c.state.pendingRequest ==> (Live(r, j) <==> Live(c.requests, j))
    ensures r.targets == c.requests.targets
  {
    if c.state.pendingRequest.Some? then Cancel(c.requests, c.state.pendingRequest.value) else c.requests
  }

  /** The controller after one event. */
  function Step(c: Controller, eligible: Selector, ev: Event): Controller {
    match ev
    case ShowCoverageCommand => Controller(ToggleShowUncovered(c.state), c.requests)
    case DocumentSaved(doc) => ComputeCoverage(c, eligible, Some(doc))
    case ActiveEditorChanged(editorDocument) => ComputeCoverage(c, eligible, editorDocument)
    case ConnectionStatusChanged(connected, editorDocument) =>
      HandleConnectionStatus(c, eligible, connected, editorDocument)
    case RequestSettled(k, s) => CompleteRequest(c, k, s)
  }

  /** The controller after a sequence of events, in order. */
  function Run(c: Controller, eligible: Selector, evs: seq<Event>): Controller
    decreases |evs|
  {
    if |evs| == 0 then c else Run(Step(c, eligible, evs[0]), eligible, evs[1..])
  }
}
