# Insult service: verified model of result composition, status mapping and health

This project models the decision logic of `InsultServiceImpl`, the service
that builds an "insult" from one noun and two adjectives fetched from two
upstream services through two circuit breakers. It covers:

- **Result composition** (`buildInsult`): a loop over the joined results
  sorts each payload by the key it carries. A payload with an `adj` key
  feeds the adjective array. Any other payload overwrites the `noun` key.
  The first two adjectives become `adj1` and `adj2`. Fewer than two
  adjectives make `adjectives.getString(...)` throw an index exception. The
  model writes the loop as the method `Composer.BuildInsult` and proves it
  against the function `Composer.Compose`. The lemmas then show what
  `Compose` means: adjective order, noun placement, the adjective key
  winning over `noun`, and when composition fails.
- **Fallback payloads**: each breaker's `fallback` supplies the payload of
  a degraded call (`{"adj":"[failure]"}`, `{"noun":"[failure]"}`). Each
  breaker also has an `openHandler` that builds `{"adj":"[open]"}` or
  `{"noun":"[open]"}`. That handler runs when the breaker opens and its
  object is discarded, so those two never reach composition. All four are
  constants in `Payloads`. The model also admits the `[open]` objects as
  possible payloads, which over-approximates. The lemmas prove that
  degraded results still compose.
- **Post-join pipeline** of `getREST`: `mapResultToError`, then composition,
  then an exception becomes a failed result for the handler
  (`InsultService.DeliveredInsult`). A failed `CompositeFuture` never actually
  reaches `mapResultToError`: `rxSetHandler()` fails the stream first, and
  `onErrorReturn` delivers the cause. The model sends it through
  `mapResultToError`'s error branch instead, and the handler gets the same
  result either way.
- **HTTP status classification** (`mapStatusToError`): a status of 400 or
  more becomes an exception with message `"<code>: <statusMessage>\n<body>"`.
  The decimal rendering of the code is written out, and the message is
  proved to decode back into its parts.
- **Health check** (`check`): reports both breaker state names. `status` is
  `"OK"` exactly when at least one breaker is `OPEN`, and `"DEGRADED"`
  otherwise. This reproduces the service's polarity as written. The result
  always succeeds.

Modules: `Async` (Option, AsyncResult, Maybe, Throwable), `Payloads`,
`Composer`, `StatusMapping`, `Health`, `InsultService`.

Two behaviours of the code are worth stating outright:

- `check` always hands the handler a succeeded future, whatever the breaker
  states (InsultServiceImpl.java:203). `Health.Check` always succeeds.
- A composite that is not one noun payload plus two adjective payloads is
  still handled the same way every time, and the model does the same.
  Fewer than two adjective payloads give a failed result with an index
  exception. If several payloads lack `adj`, the last one's noun is kept.
  Adjectives after the second are ignored.

## Model

| member | source | states |
|---|---|---|
| Composer.BuildInsult | src/main/java/com/redhat/qcon/insult/services/insult/InsultServiceImpl.java:89-106 | the loop over the results yields exactly `Compose(results)`: the insult built from the adjectives in the order met and the last noun, or the index exception |
| Composer.AdjectivesCount | src/main/java/com/redhat/qcon/insult/services/insult/InsultServiceImpl.java:94-97 | the adjective array has one entry per payload carrying `adj` |
| Composer.AdjectivePosition | src/main/java/com/redhat/qcon/insult/services/insult/InsultServiceImpl.java:94-97 | every `adj` payload's value sits in the adjective array at the index equal to the number of adjectives before it |
| Composer.AdjectiveSource | src/main/java/com/redhat/qcon/insult/services/insult/InsultServiceImpl.java:94-97 | every entry of the adjective array comes from an `adj` payload preceded by exactly as many adjectives as the entry's index |
| Composer.NounFromLastNonAdjective | src/main/java/com/redhat/qcon/insult/services/insult/InsultServiceImpl.java:94-100 | the insult's noun is the `noun` of the last payload without `adj` |
| Composer.NounAbsentWithoutNounPayload | src/main/java/com/redhat/qcon/insult/services/insult/InsultServiceImpl.java:90-101 | when every payload carries `adj`, the insult gets no noun |
| Composer.AdjectiveKeyWins | src/main/java/com/redhat/qcon/insult/services/insult/InsultServiceImpl.java:96-99 | a payload with `adj` counts as an adjective even if it has `noun`: changing its noun changes neither the adjectives, the noun nor the result |
| Composer.ComposeSucceedsIff | src/main/java/com/redhat/qcon/insult/services/insult/InsultServiceImpl.java:102-105 | composition succeeds if and only if at least two payloads carry `adj`; otherwise it fails with the index exception at the count of adjectives |
| Composer.NounPlacement | src/main/java/com/redhat/qcon/insult/services/insult/InsultServiceImpl.java:93-101 | inserting one noun payload anywhere among adjective payloads leaves the adjective array unchanged and sets the noun to that payload's |
| Composer.ComposeThree | src/main/java/com/redhat/qcon/insult/services/insult/InsultServiceImpl.java:93-105 | one noun payload and two adjective payloads compose into that noun, `adj1` from the first adjective met and `adj2` from the second, at each noun position |
| Composer.NounPositionIrrelevant | src/main/java/com/redhat/qcon/insult/services/insult/InsultServiceImpl.java:93-101 | moving the noun payload to another position does not change the result |
| Composer.SwapAdjectives | src/main/java/com/redhat/qcon/insult/services/insult/InsultServiceImpl.java:94-103 | swapping the two adjective payloads swaps `adj1` and `adj2` and changes nothing else |
| Composer.ReorderedResultsCompose | src/main/java/com/redhat/qcon/insult/services/insult/InsultServiceImpl.java:93-105 | any reordering of one noun payload and two adjective payloads succeeds with that noun and the two adjectives as a multiset |
| Composer.AllFailuresCompose | src/main/java/com/redhat/qcon/insult/services/insult/InsultServiceImpl.java:56-66 | three `[failure]` fallback payloads compose into `[failure]` for noun, `adj1` and `adj2`, in any order |
| StatusMapping.MapStatusToError | src/main/java/com/redhat/qcon/insult/services/insult/InsultServiceImpl.java:172-183 | a status below 400 passes the response through unchanged; a status of 400 or more gives a client exception whose message is code, ": ", status text, newline, body |
| StatusMapping.DecimalRoundTrip | src/main/java/com/redhat/qcon/insult/services/insult/InsultServiceImpl.java:174-175 | reading back the `%d` rendering of a status code gives the code |
| StatusMapping.ErrorMessageDecodes | src/main/java/com/redhat/qcon/insult/services/insult/InsultServiceImpl.java:173-179 | the error message's leading digits denote the status code, followed by ": ", the status text, a newline and the body (or "null") |
| Health.Check | src/main/java/com/redhat/qcon/insult/services/insult/InsultServiceImpl.java:190-203 | the check always succeeds, reports the two state names, and sets status "OK" exactly when some breaker is OPEN and "DEGRADED" exactly when none is |
| InsultService.MapResultToError | src/main/java/com/redhat/qcon/insult/services/insult/InsultServiceImpl.java:157-163 | a succeeded composite passes through unchanged; a failed one becomes an error with the composite's cause |
| InsultService.DeliveredInsult | src/main/java/com/redhat/qcon/insult/services/insult/InsultServiceImpl.java:76-81 | the handler receives a failed composite's own cause, and otherwise the result of composing the composite's results, with a composition exception becoming a failed result |
| InsultService.DeliveredFailureCauses | src/main/java/com/redhat/qcon/insult/services/insult/InsultServiceImpl.java:76-81 | the handler gets a failure exactly when the composite failed (with its cause) or fewer than two results carry `adj` |
| InsultService.BreakerPayloadsAlwaysDeliver | src/main/java/com/redhat/qcon/insult/services/insult/InsultServiceImpl.java:76-81 | for results joined as noun, adjective, adjective, upstream bodies of the documented shape (`{"noun": s}` / `{"adj": s}`) or fallbacks give a succeeded insult built from them |
| InsultService.TotalFailureDelivers | src/main/java/com/redhat/qcon/insult/services/insult/InsultServiceImpl.java:76-81 | when both dependencies fall back to `[failure]`, the handler still receives a succeeded insult of `[failure]` values |

## Left out

- Circuit breaker internals (failure counting, OPEN/HALF_OPEN transitions, the 250 ms call timeout, the 15000 ms reset timeout, retries): library behaviour, not visible in this code. A breaker's state is an input to `Health.Check`.
- The `[open]` objects built by `openHandler` are discarded by the breaker. Lemmas that admit them as payloads over-approximate what can reach composition.
- InsultService.BreakerPayloadsAlwaysDeliver: assumes upstream bodies of the documented shape, `{"noun": s}` from the noun service and `{"adj": s}` from the adjective service. A 200 response with another body (`{}`, say) passes status classification, and composition may then fail; `Composer.ComposeSucceedsIff` and `InsultService.DeliveredFailureCauses` state exactly when.
- HTTP transport (`WebClient` creation and options, `get`, the 500 ms `timeout`, `rxSend`, `bodyAsJsonObject`) in `getNoun` and `getAdjective`: I/O and timing. Only the status classification they apply is modelled.
- The concurrent fan-out `CompositeFuture.all` and the RxJava scheduling in `getREST`: concurrency. The model starts from the joined composite.
- `publish` to Kafka: a fire-and-forget call into a foreign service proxy.
- JSON encoding: a payload keeps only its `adj` and `noun` keys as optional strings. JSON null and non-string values are not modelled, so the `ClassCastException` that `getString` would throw on them is not modelled either. In the insult, an absent `noun` key and a null one are both `None`.
- `%d` is rendered with ASCII digits; locale-specific digits are not modelled.
- The constructor's configuration reading and client options: wiring only.

