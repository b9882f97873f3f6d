/** The JSON objects that flow through result composition: the payload each
    upstream call resolves to, the composed insult, and the payloads built by
    the handlers registered on the two circuit breakers. */
module Payloads {
  import opened Async

  /** A payload returned by a breaker-wrapped call. Only the two keys that
      composition looks at are kept: `adj` and `noun`. */
  datatype Payload = Payload(adj: Option<string>, noun: Option<string>)

  /** The composed insult object with keys `noun`, `adj1` and `adj2`.
      `noun` is None when no payload put a noun string into the object. */
  datatype Insult = Insult(noun: Option<string>, adj1: string, adj2: string)

  /** The adjective breaker's `fallback` payload, which a degraded call
      yields. */
  const AdjFailure := Payload(Some("[failure]"), None)

  /** The object built by the adjective breaker's `openHandler`. That handler
      runs when the breaker opens and its object is discarded, so this payload
      never reaches composition; the model admits it only as an
      over-approximation. */
  const AdjOpen := Payload(Some("[open]"), None)

  /** The noun breaker's `fallback` payload, which a degraded call yields. */
  const NounFailure := Payload(None, Some("[failure]"))

  /** The object built by the noun breaker's `openHandler`; discarded like
      `AdjOpen`, and admitted only as an over-approximation. */
  const NounOpen := Payload(None, Some("[open]"))

  /** What the noun breaker can deliver when the upstream body has the
      documented shape {"noun": s}: such a body, or the `[failure]` fallback
      (and, over-approximating, the `[open]` object), all of which carry
      `noun` and no `adj`. */
  predicate FromNounBreaker(p: Payload) {
    p.adj.None? && p.noun.Some?
  }

  /** What the adjective breaker can deliver when the upstream body has the
      documented shape {"adj": s}: such a body, or the `[failure]` fallback
      (and, over-approximating, the `[open]` object), all of which carry
      `adj`. */
  predicate FromAdjBreaker(p: Payload) {
    p.adj.Some?
  }
}
