/** `_navigate_to_url`, the same loop in both client variants: up to
    `maxRetries` attempts to load and settle a page, sleeping `2^attempt`
    seconds after each timeout and giving up at once on any other error.
    It never raises. */
module Navigation {
  import opened Web

  /** How the retry loop ended. */
  datatype Settled = Loaded | Aborted | RetriesExhausted

  function Pow2(n: nat): (r: nat)
    ensures r >= 1
  {
    if n == 0 then 1 else 2 * Pow2(n - 1)
  }

  /** Navigate to `url`, returning how many attempts were made, the sleeps
      taken (in seconds, in order) and how the loop ended. The outcome is
      only logged by the callers. */
  method NavigateToUrl(web: WebMap, url: Url, maxRetries: nat)
    returns (attempts: nat, sleeps: seq<nat>, result: Settled)
    ensures attempts <= maxRetries
    // every attempt but the last timed out, and was followed by the backoff sleep
    ensures forall k :: 0 <= k < |sleeps| ==>
      SettleAttempt(web, url, k) == Raised(Timeout) && sleeps[k] == Pow2(k)
    ensures result == RetriesExhausted <==> |sleeps| == attempts
    ensures result == RetriesExhausted ==> attempts == maxRetries
    ensures result == Loaded ==>
      attempts == |sleeps| + 1 && SettleAttempt(web, url, |sleeps|) == Done
    ensures result == Aborted ==>
      attempts == |sleeps| + 1 && SettleAttempt(web, url, |sleeps|) == Raised(Other)
  {
    attempts, sleeps := 0, [];
    var attempt := 0;
    while attempt < maxRetries
      invariant attempt <= maxRetries
      invariant attempts == attempt && |sleeps| == attempt
      invariant forall k :: 0 <= k < |sleeps| ==>
        SettleAttempt(web, url, k) == Raised(Timeout) && sleeps[k] == Pow2(k)
    {
      attempts := attempts + 1;
      match SettleAttempt(web, url, attempt) {
        case Done =>
          return attempts, sleeps, Loaded;
        case Raised(Timeout) =>
          sleeps := sleeps + [Pow2(attempt)];
        case Raised(Other) =>
          return attempts, sleeps, Aborted;
      }
      attempt := attempt + 1;
    }
    result := RetriesExhausted;
  }
}
