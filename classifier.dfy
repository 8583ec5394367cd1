/**
 * The remote censorship service as the pages see it. `image_processing` returns the decoded
 * JSON object of the service, or `None` when the token request, the file read or the HTTP call
 * failed; the pages only ever look at its "conclusion" field.
 */
module Classifier {
  import opened Wrappers

  /** The decoded JSON object, keyed by field name (values kept as their text). */
  type Response = map<string, string>

  /** What `image_processing` returns: the response, or None on any failure. */
  type Verdict = Option<Response>

  const ConclusionKey := "conclusion"
  const Compliant := "合规"
  const NonCompliant := "不合规"

  /** `result.get("conclusion")` on a dict. */
  function Conclusion(r: Response): Option<string> {
    if ConclusionKey in r then Some(r[ConclusionKey]) else None
  }

  /** The one test every page applies: the conclusion equals "不合规". */
  predicate IsBad(r: Response) {
    Conclusion(r) == Some(NonCompliant)
  }
}
