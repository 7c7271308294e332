/** The cancellable single-flight request of `requestTypeCoverage`.

    Each call starts one asynchronous coverage computation and hands back a
    handle whose only operation is `cancel`. The promise of a request settles
    at most once; when it resolves and the request was not cancelled, the
    callback receives the result (a missing result becomes `null`).

    Instead of closures holding an `isCancelled` flag, every request ever
    started gets a fresh natural-number id, and one table records the
    document each id was started for, the ids that were cancelled and the ids
    whose promise has settled. */
module CancellableRequest {
  import opened CoverageTypes

  type RequestId = nat

  /** How the provider's promise for a request settled. */
  datatype Settlement = Resolved(result: Option<CoverageResult>) | Rejected

  /** Request `k` was started for `targets[k]`. */
  datatype Requests = Requests(targets: seq<Document>, cancelled: set<RequestId>, settled: set<RequestId>)

  const NoRequests: Requests := Requests([], {}, {})

  predicate Started(rs: Requests, k: RequestId) {
    k < |rs.targets|
  }

  /** Only started requests are ever cancelled or settled. */
  predicate Valid(rs: Requests) {
    && (forall k :: k in rs.cancelled ==> Started(rs, k))
    && (forall k :: k in rs.settled ==> Started(rs, k))
  }

  /** A request whose callback may still fire. */
  predicate Live(rs: Requests, k: RequestId) {
    Started(rs, k) && k !in rs.cancelled && k !in rs.settled
  }

  /** Starts a request for `doc` (the body of `requestTypeCoverage` up to the
      return of the handle). The new id was never used before and is live;
      every earlier request keeps its target and its status. */
  function Start(rs: Requests, doc: Document): (r: (Requests, RequestId))
    ensures !Started(rs, r.1) && Started(r.0, r.1)
    ensures r.0.targets[r.1] == doc
    ensures forall j: RequestId :: Started(rs, j) ==> Started(r.0, j) && r.0.targets[j] == rs.targets[j]
    ensures forall j: RequestId :: j != r.1 ==> (Live(r.0, j) <==> Live(rs, j))
    ensures r.0.cancelled == rs.cancelled && r.0.settled == rs.settled
    ensures Valid(rs) ==> Valid(r.0) && Live(r.0, r.1)
  {
    (rs.(targets := rs.targets + [doc]), |rs.targets|)
  }

  /** The handle's `cancel`: the request's callback can no longer fire, and
      no other request changes status. */
  function Cancel(rs: Requests, k: RequestId): (r: Requests)
    ensures !Live(r, k)
    ensures forall j: RequestId :: j != k ==> (Live(r, j) <==> Live(rs, j))
    ensures r.targets == rs.targets && r.settled == rs.settled
    ensures k in r.cancelled && rs.cancelled <= r.cancelled
    ensures Valid(rs) && Started(rs, k) ==> Valid(r)
  {
    rs.(cancelled := rs.cancelled + {k})
  }

  /** The promise of request `k` settles with `s`. The second component is
      `Some(coverage)` exactly when the callback fires, which it does only
      for a live request whose promise resolved; a rejection never reaches
      the callback. Settling an id that was never started or has already
      settled is no event at all and changes nothing. */
  function Settle(rs: Requests, k: RequestId, s: Settlement): (r: (Requests, Option<Option<CoverageResult>>))
    ensures r.1.Some? <==> Live(rs, k) && s.Resolved?
    ensures r.1.Some? ==> r.1.value == s.result
    ensures !Live(r.0, k)
    ensures Started(rs, k) ==> k in r.0.settled
    ensures forall j: RequestId :: j != k ==> (Live(r.0, j) <==> Live(rs, j))
    ensures r.0.targets == rs.targets && r.0.cancelled == rs.cancelled && rs.settled <= r.0.settled
    ensures Valid(rs) ==> Valid(r.0)
  {
    if !Started(rs, k) || k in rs.settled then
      (rs, None)
    else
      var rs' := rs.(settled := rs.settled + {k});
      if k in rs.cancelled then
        (rs', None)
      else
        match s
        case Rejected => (rs', None)
        case Resolved(coverage) => (rs', Some(coverage))
  }

  /** Cancelling twice is the same as cancelling once. */
  lemma CancelIdempotent(rs: Requests, k: RequestId)
    ensures Cancel(Cancel(rs, k), k) == Cancel(rs, k)
  {
  }

  /** A callback fires at most once: once a request has settled, a second
      settlement changes nothing and delivers nothing. */
  lemma SettleAtMostOnce(rs: Requests, k: RequestId, s1: Settlement, s2: Settlement)
    ensures var rs1 := Settle(rs, k, s1).0;
            Settle(rs1, k, s2) == (rs1, None)
  {
  }

  /** A callback never fires after `cancel`, whenever the promise settles. */
  lemma NoDeliveryAfterCancel(rs: Requests, k: RequestId, s: Settlement)
    ensures Settle(Cancel(rs, k), k, s).1 == None
  {
  }
}
