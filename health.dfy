/** The health check: reports the names of the two breakers' states and a
    status derived from them, reproducing the service's polarity, in which
    "OK" means that at least one breaker is open. */
module Health {
  import opened Async

  /** The states a circuit breaker reports. */
  datatype BreakerState = Closed | Open | HalfOpen

  /** The Java enum constant's `name()`. */
  function Name(s: BreakerState): string
  {
    match s
    case Closed => "CLOSED"
    case Open => "OPEN"
    case HalfOpen => "HALF_OPEN"
  }

  /** The health object with keys `noun`, `adj` and `status`. */
  datatype HealthReport = HealthReport(noun: string, adj: string, status: string)

  /** `check`: the result always succeeds; `status` is "OK" exactly when some
      breaker is open and "DEGRADED" otherwise. Only the two states are read. */
  function Check(nounState: BreakerState, adjState: BreakerState): (r: AsyncResult<HealthReport>)
    ensures r.Succeeded?
    ensures r.value.noun == Name(nounState) && r.value.adj == Name(adjState)
    ensures r.value.status == "OK" <==> nounState == Open || adjState == Open
    ensures r.value.status == "DEGRADED" <==> nounState != Open && adjState != Open
  {
    var nounName, adjName := Name(nounState), Name(adjState);
    var status := if nounName == "OPEN" || adjName == "OPEN" then "OK" else "DEGRADED";
    Succeeded(HealthReport(nounName, adjName, status))
  }
}
