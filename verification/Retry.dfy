/** The retry policy of webhook deliveries. Times are milliseconds, delays whole seconds. */
module Retry {
  import opened Prelude

  // A back-off that is not a finite number is None.
  datatype RetryPolicy = RetryPolicy(maxAttempts: Option<int>, backoffSeconds: seq<Option<int>>,
                                     deadLetterUri: Option<string>)

  const DEFAULT_MAX_ATTEMPTS := 3
  const DEFAULT_BACKOFF: seq<Option<int>> := [Some(30), Some(60), Some(120)]
  const DEFAULT_DELAY := 30

  function MaxAttempts(p: Option<RetryPolicy>): int {
    if p.None? then DEFAULT_MAX_ATTEMPTS else p.value.maxAttempts.GetOr(DEFAULT_MAX_ATTEMPTS)
  }

  function Backoff(p: Option<RetryPolicy>): (b: seq<Option<int>>)
    ensures b != []
  {
    if p.None? || p.value.backoffSeconds == [] then DEFAULT_BACKOFF else p.value.backoffSeconds
  }

  function Max(a: int, b: int): int { if a < b then b else a }

  function Min(a: int, b: int): int { if a < b then a else b }

  // The back-off of the attempt, or of the last listed one beyond the list; the default where the
  // listed one is not a positive number. The index is always in range.
  function DelaySeconds(backoff: seq<Option<int>>, attemptNumber: int): (d: int)
    requires backoff != []
    ensures d > 0
    ensures d == DEFAULT_DELAY || Some(d) in backoff
  {
    var index := Min(Max(attemptNumber - 1, 0), |backoff| - 1);
    match backoff[index]
    case Some(value) => if value > 0 then value else DEFAULT_DELAY
    case None => DEFAULT_DELAY
  }

  // Attempt n waits the n-th back-off; beyond the list, the last one.
  lemma DelayOfAttempt(backoff: seq<Option<int>>, n: int)
    requires backoff != [] && n >= 1
    ensures n <= |backoff| && backoff[n - 1].GetOr(0) > 0 ==> backoff[n - 1] == Some(DelaySeconds(backoff, n))
    ensures n <= |backoff| && backoff[n - 1].GetOr(0) <= 0 ==> DelaySeconds(backoff, n) == DEFAULT_DELAY
    ensures n > |backoff| ==> DelaySeconds(backoff, n) == DelaySeconds(backoff, |backoff|)
  {
  }

  // When to try again, if at all.
  function NextAttemptAt(attemptNumber: int, p: Option<RetryPolicy>, now: int): (next: Option<int>)
    ensures next.Some? <==> attemptNumber < MaxAttempts(p)
    ensures next.Some? ==> next.value >= now + 1000
  {
    if attemptNumber >= MaxAttempts(p) then None
    else Some(now + DelaySeconds(Backoff(p), attemptNumber) * 1000)
  }

  // The next attempt comes below the policy's maximum, or the third attempt without one, after the
  // policy's own n-th back-off; beyond its list, the last one; without a list, 30, 60 and 120 seconds.
  lemma NextAttemptMeaning(n: int, p: Option<RetryPolicy>, now: int)
    requires n >= 1
    ensures var next := NextAttemptAt(n, p, now);
            var most := if p.Some? && p.value.maxAttempts.Some? then p.value.maxAttempts.value else 3;
            var own := p.Some? && p.value.backoffSeconds != [];
            && (next.Some? <==> n < most)
            && (n < most && own && n <= |p.value.backoffSeconds| && p.value.backoffSeconds[n - 1].GetOr(0) > 0 ==>
                  next == Some(now + 1000 * p.value.backoffSeconds[n - 1].value))
            && (n < most && own && n <= |p.value.backoffSeconds| && p.value.backoffSeconds[n - 1].GetOr(0) <= 0 ==>
                  next == Some(now + 1000 * 30))
            && (n < most && own && n > |p.value.backoffSeconds| && Last(p.value.backoffSeconds).GetOr(0) > 0 ==>
                  next == Some(now + 1000 * Last(p.value.backoffSeconds).value))
            && (n < most && own && n > |p.value.backoffSeconds| && Last(p.value.backoffSeconds).GetOr(0) <= 0 ==>
                  next == Some(now + 1000 * 30))
            && (n < most && !own ==> next == Some(now + 1000 * (if n == 1 then 30 else if n == 2 then 60 else 120)))
  {
  }

  // `computeDelaySeconds`, at time `now`
  function QueueDelaySeconds(nextAttemptAt: Option<int>, now: int): (d: nat) {
    match nextAttemptAt
    case None => 0
    case Some(next) => if next <= now then 0 else (next - now + 999) / 1000
  }

  // A retry put into the queue at `enqueuedAt`, after its delay was computed at `now`, never
  // matures before the record's next attempt, and less than a second and the enqueuing later.
  lemma RetryMatures(next: int, now: int, enqueuedAt: int)
    requires now <= enqueuedAt
    ensures var readyAt := enqueuedAt + QueueDelaySeconds(Some(next), now) * 1000;
            next <= readyAt < Max(next, now) + 1000 + (enqueuedAt - now)
  {
  }
}
