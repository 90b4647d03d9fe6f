/** The arithmetic of the verbose report: estimated duration before the
    copy, elapsed seconds and average throughput after it. */
module Report {
  import opened Common

  const NanosPerSecond: nat := 1_000_000_000

  /** `int64(elapsedtime.Seconds())`: whole seconds of a non-negative
      duration given in nanoseconds, the fraction dropped. */
  function ElapsedSeconds(nanos: nat): (s: nat)
    ensures s * NanosPerSecond <= nanos < (s + 1) * NanosPerSecond
  {
    nanos / NanosPerSecond
  }

  /** `bytes / seconds` of the closing report, where a copy that took less
      than a second counts as taking one. */
  function AverageRate(bytes: nat, nanos: nat): (rate: nat)
    ensures ElapsedSeconds(nanos) == 0 ==> rate == bytes
    ensures ElapsedSeconds(nanos) > 0 ==>
              rate * ElapsedSeconds(nanos) <= bytes < (rate + 1) * ElapsedSeconds(nanos)
  {
    var seconds := ElapsedSeconds(nanos);
    bytes / (if seconds == 0 then 1 else seconds)
  }

  /** The estimated time in whole seconds: the estimated size divided by the
      rate limit, rounded down. */
  function EstimatedSeconds(estimate: nat, limit: nat): (t: nat)
    requires limit > 0
    ensures t * limit <= estimate < (t + 1) * limit
  {
    estimate / limit
  }

  /** `ctx.estimatesize / ctx.limit` as written: Go's unsigned division
      panics when the limit is 0, shown here as `None`. */
  function EstimateAsWritten(estimate: nat, limit: nat): (r: Option<nat>)
    ensures r.None? <==> limit == 0
    ensures r.Some? ==> r.value * limit <= estimate < (r.value + 1) * limit
  {
    if limit == 0 then None else Some(EstimatedSeconds(estimate, limit))
  }
}
