/**
 * The retry loop of `identifySpeciesFromImage` (lib/gemini-services.ts):
 * up to four calls to the vision model, retrying with exponential backoff
 * while the failure looks like an overload or a rate limit. The model's
 * answer to call k is the parameter `respond(k)`; `Math.random()` is the
 * parameter `jitter(k)`, the whole milliseconds added before retry k; the
 * waits themselves are returned instead of slept.
 */
module GeminiRetry {
  import opened Wrappers
  import opened JsStrings

  datatype CallOutcome = Reply(text: string) | Failure(message: string)

  const MaxAttempts: nat := 4
  const BaseDelayMs: nat := 500
  const JitterBound: nat := 200
  const ErrorPrefix := "Failed to identify species from image: "

  /** `/503|overloaded|temporarily unavailable/i` or `/429|rate limit/i`. */
  predicate Transient(message: string) {
    var m := ToLower(message);
    Contains(m, "503") || Contains(m, "overloaded") || Contains(m, "temporarily unavailable")
    || Contains(m, "429") || Contains(m, "rate limit")
  }

  function Pow2(k: nat): (r: nat)
    ensures r >= 1
  {
    if k == 0 then 1 else 2 * Pow2(k - 1)
  }

  /** The wait after failed attempt `attempt` (from 1). */
  function Delay(attempt: nat, jitter: nat): nat
    requires attempt >= 1
  {
    BaseDelayMs * Pow2(attempt - 1) + jitter
  }

  /** The waits before retries 2 .. n + 1. */
  function Schedule(n: nat, jitter: nat -> nat): (s: seq<nat>)
    ensures |s| == n
    ensures forall k :: 0 <= k < n ==> s[k] == Delay(k + 1, jitter(k + 1))
  {
    seq<nat>(n, k requires 0 <= k < n => Delay(k + 1, jitter(k + 1)))
  }

  /**
   * Calls the model until it answers, fails for a reason other than load,
   * or has been called four times. `calls` is the number of calls made and
   * `waits` the pauses between them.
   */
  method IdentifyWithRetry(respond: nat -> CallOutcome, jitter: nat -> nat)
    returns (r: Result<string, string>, calls: nat, waits: seq<nat>)
    ensures 1 <= calls <= MaxAttempts
    ensures forall k :: 1 <= k < calls ==> respond(k).Failure? && Transient(respond(k).message)
    ensures r.Ok? <==> respond(calls).Reply?
    ensures r.Ok? ==> r.value == respond(calls).text
    ensures r.Err? ==> r.error == ErrorPrefix + respond(calls).message
    ensures r.Err? && calls < MaxAttempts ==> !Transient(respond(calls).message)
    ensures waits == Schedule(calls - 1, jitter)
  {
    var attempt: nat := 1;
    waits := [];
    while true
      invariant 1 <= attempt <= MaxAttempts
      invariant forall k :: 1 <= k < attempt ==> respond(k).Failure? && Transient(respond(k).message)
      invariant waits == Schedule(attempt - 1, jitter)
      decreases MaxAttempts - attempt
    {
      calls := attempt;
      var outcome := respond(attempt);
      if outcome.Reply? {
        r := Ok(outcome.text);
        return;
      }
      if Transient(outcome.message) && attempt < MaxAttempts {
        waits := waits + [Delay(attempt, jitter(attempt))];
        attempt := attempt + 1;
      } else {
        r := Err(ErrorPrefix + outcome.message);
        return;
      }
    }
  }

  function Sum(s: seq<nat>): nat
    decreases |s|
  {
    if |s| == 0 then 0 else Sum(s[..|s| - 1]) + s[|s| - 1]
  }

  /**
   * With jitter below 200 ms, the first n waits add up to the doubling
   * base delays 500 + 1000 + ... plus less than 200 ms each.
   */
  lemma {:induction false} ScheduleTotal(n: nat, jitter: nat -> nat)
    requires forall k :: 1 <= k <= n ==> jitter(k) < JitterBound
    ensures BaseDelayMs * (Pow2(n) - 1) <= Sum(Schedule(n, jitter)) < BaseDelayMs * (Pow2(n) - 1) + JitterBound * n + 1
  {
    if n > 0 {
      var s := Schedule(n, jitter);
      assert s[..n - 1] == Schedule(n - 1, jitter);
      ScheduleTotal(n - 1, jitter);
      assert s[n - 1] == BaseDelayMs * Pow2(n - 1) + jitter(n);
      assert Pow2(n) == 2 * Pow2(n - 1);
    }
  }

  /** Each base delay is twice the one before it. */
  lemma DelayDoubles(attempt: nat)
    requires attempt >= 1
    ensures Delay(attempt + 1, 0) == 2 * Delay(attempt, 0)
  {
  }

  /** Calls 1 .. c - 1 all failed under load. */
  predicate RetriedThrough(respond: nat -> CallOutcome, c: nat) {
    forall k :: 1 <= k < c ==> respond(k).Failure? && Transient(respond(k).message)
  }

  /** Call c ends the loop: it answered, failed for another reason, or was the last. */
  predicate StopsAt(respond: nat -> CallOutcome, c: nat) {
    respond(c).Reply? || !Transient(respond(c).message) || c == MaxAttempts
  }

  /** At most one number of calls fits the loop's contract, so the contract
      fixes the outcome for every sequence of model answers. */
  lemma StopIsUnique(respond: nat -> CallOutcome, c1: nat, c2: nat)
    requires 1 <= c1 <= MaxAttempts && 1 <= c2 <= MaxAttempts
    requires RetriedThrough(respond, c1) && StopsAt(respond, c1)
    requires RetriedThrough(respond, c2) && StopsAt(respond, c2)
    ensures c1 == c2
  {
  }
}
