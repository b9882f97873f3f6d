/** The part of `getREST` that runs after the three breaker-wrapped calls
    have been joined: failed composites are turned into errors, succeeded
    ones are composed, and an exception during composition becomes a failed
    result for the handler. */
module InsultService {
  import opened Async
  import opened Payloads
  import opened Composer

  /** A joined CompositeFuture: its results in listed order, or its cause. */
  type Composite = AsyncResult<seq<Payload>>

  /** `mapResultToError`: a succeeded composite passes through, a failed one
      becomes an error carrying its cause. */
  function MapResultToError(cf: Composite): (m: Maybe<Composite>)
    ensures m.Just? <==> cf.Succeeded?
    ensures m.Just? ==> m.value == cf
    ensures m.Error? ==> m.cause == cf.cause
  {
    if cf.Succeeded? then Just(cf) else Error(cf.cause)
  }

  /** What the handler given to `getREST` receives once the composite is
      complete: a failed composite's own cause, or the composed insult, with
      an exception thrown during composition turned into a failed result.
      In the service a failed composite already fails the `Single` built by
      `rxSetHandler()`, so `onErrorReturn` delivers its cause before
      `mapResultToError` runs; the error branch here gives that same result. */
  function DeliveredInsult(cf: Composite): (r: AsyncResult<Insult>)
    ensures cf.Failed? ==> r == Failed(cf.cause)
    ensures cf.Succeeded? ==> r == Compose(cf.value)
  {
    var m := MapResultToError(cf);
    if m.Error? then Failed(m.cause) else Compose(m.value.value)
  }

  /** The handler sees a failure exactly when the composite failed (with the
      composite's own cause) or when fewer than two results carry `adj`. */
  lemma DeliveredFailureCauses(cf: Composite)
    ensures DeliveredInsult(cf).Failed?
            <==> cf.Failed? || AdjectivePayloads(cf.value) < 2
    ensures cf.Failed? ==> DeliveredInsult(cf) == Failed(cf.cause)
  {
    if cf.Succeeded? {
      ComposeSucceedsIff(cf.value);
    }
  }

  /** With the calls joined in the order `getNoun(), getAdjective(),
      getAdjective()`, when each breaker delivers an upstream body of the
      documented shape ({"noun": s} / {"adj": s}) or a fallback, the handler
      receives a succeeded insult built from them. */
  lemma BreakerPayloadsAlwaysDeliver(n: Payload, a: Payload, b: Payload)
    requires FromNounBreaker(n) && FromAdjBreaker(a) && FromAdjBreaker(b)
    ensures DeliveredInsult(Succeeded([n, a, b]))
            == Succeeded(Insult(n.noun, a.adj.value, b.adj.value))
  {
    assert [n, a, b] == Arrange(n, a, b, 0);
    ComposeThree(n, a, b, 0);
  }

  /** Both dependencies failing: every call falls back to `[failure]` and the
      handler still receives a succeeded insult. */
  lemma TotalFailureDelivers()
    ensures DeliveredInsult(Succeeded([NounFailure, AdjFailure, AdjFailure]))
            == Succeeded(Insult(Some("[failure]"), "[failure]", "[failure]"))
  {
    BreakerPayloadsAlwaysDeliver(NounFailure, AdjFailure, AdjFailure);
  }
}
