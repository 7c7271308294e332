/** Values the type-coverage feature exchanges with its collaborators: the
    documents it tracks and the coverage results the type checker reports. */
module CoverageTypes {

  /** An optional value; `None` stands for the source's `null`. */
  datatype Option<+T> = None | Some(value: T)

  /** A zero-based line/character position in a text document. */
  datatype Position = Position(line: nat, character: nat)

  /** A span of a text document. The feature never inspects a range; it only
      copies it from a coverage result into a diagnostic. */
  datatype Range = Range(start: Position, end: Position)

  /** A span the type checker could not type, with an optional explanation. */
  datatype UncoveredRange = UncoveredRange(range: Range, message: Option<string>)

  /** What the type checker reports for one document. The percentage is a
      floating-point number in the source; here it is an opaque integer. */
  datatype CoverageResult = CoverageResult(coveredPercent: int, uncoveredRanges: seq<UncoveredRange>)

  /** An open text document. The feature compares documents by object
      identity; `handle` stands for that identity, so two documents with the
      same `uri` but different handles are different documents. A document
      object keeps its uri, so the host never hands out two documents with
      the same handle and different uris, and equality of documents here
      coincides with equality of handles. */
  datatype Document = Document(handle: nat, uri: string)
}
