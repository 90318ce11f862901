/**
 * The reconnect policy of the cache client: before the `times`-th reconnect
 * attempt it waits `min(times * 50, 2000)` milliseconds.
 */
module RedisRetry {
  const StepMillis: nat := 50
  const CapMillis: nat := 2000

  /** `retryStrategy(times)`: a linear back-off capped at two seconds; it never gives up. */
  function RetryDelay(times: nat): (delay: nat)
    ensures delay <= CapMillis
    ensures delay <= times * StepMillis
    ensures delay == times * StepMillis || delay == CapMillis
  {
    if times * StepMillis < CapMillis then times * StepMillis else CapMillis
  }

  /** Later attempts never wait less than earlier ones. */
  lemma RetryDelayMonotone(a: nat, b: nat)
    requires a <= b
    ensures RetryDelay(a) <= RetryDelay(b)
  {
  }

  /** The delay grows by 50 ms per attempt up to the 40th, and is 2000 ms from then on. */
  lemma RetryDelayShape(times: nat)
    ensures times <= 40 ==> RetryDelay(times) == 50 * times
    ensures times >= 40 ==> RetryDelay(times) == 2000
  {
  }
}
