/**
 * The `retry_with_backoff` decorator of the LLM helpers: the wrapped call is
 * tried up to `max_retries` times, sleeping `base_delay * 2^attempt` seconds
 * after every failed attempt but the last, whose exception is re-raised.
 *
 * The wrapped call is an oracle indexed by attempt number (its outcome may
 * change from one attempt to the next); the sleeps are returned as the list of
 * delays requested, in order.
 */
module LlmRetry {
  import opened Wrappers

  function Pow2(k: nat): (p: nat)
    ensures p >= 1
  {
    if k == 0 then 1 else 2 * Pow2(k - 1)
  }

  /** The delay after failed attempt `k`: `base_delay * (2 ** k)`, one doubling per attempt. */
  function Backoff(baseDelay: real, k: nat): real {
    if k == 0 then baseDelay else 2.0 * Backoff(baseDelay, k - 1)
  }

  /** The doubling form agrees with the closed form of the source. */
  lemma {:induction false} BackoffClosedForm(baseDelay: real, k: nat)
    ensures Backoff(baseDelay, k) == baseDelay * (Pow2(k) as real)
  {
    if k > 0 {
      BackoffClosedForm(baseDelay, k - 1);
      var p := Pow2(k - 1) as real;
      assert Pow2(k) as real == 2.0 * p;
      assert baseDelay * (2.0 * p) == 2.0 * (baseDelay * p);
    }
  }

  /**
   * What the wrapper returns once attempts `0 .. attempt - 1` have raised:
   * the first later attempt that returns, the exception of attempt
   * `max_retries - 1`, or the closing `RuntimeError` when no attempt is left.
   */
  function Retried<T>(maxRetries: int, func: nat -> Outcome<T>, attempt: nat): Outcome<T>
    decreases maxRetries - attempt
  {
    if attempt >= maxRetries then Raised(RuntimeError)
    else if func(attempt).Ok? || attempt == maxRetries - 1 then func(attempt)
    else Retried(maxRetries, func, attempt + 1)
  }

  /** The wrapper returns a value exactly when some remaining attempt returns one. */
  lemma {:induction false} RetriedOk<T>(maxRetries: int, func: nat -> Outcome<T>, attempt: nat)
    ensures Retried(maxRetries, func, attempt).Ok? <==> exists j :: attempt <= j < maxRetries && func(j).Ok?
    decreases maxRetries - attempt
  {
    if attempt < maxRetries && !func(attempt).Ok? && attempt != maxRetries - 1 {
      RetriedOk(maxRetries, func, attempt + 1);
      assert (exists j :: attempt <= j < maxRetries && func(j).Ok?)
         ==> (exists j :: attempt + 1 <= j < maxRetries && func(j).Ok?);
    }
  }

  /** When attempt `j` is the first to return, its value is the wrapper's result. */
  lemma {:induction false} RetriedFirst<T>(maxRetries: int, func: nat -> Outcome<T>, attempt: nat, j: nat)
    requires attempt <= j < maxRetries && func(j).Ok?
    requires forall i :: attempt <= i < j ==> func(i).Raised?
    ensures Retried(maxRetries, func, attempt) == func(j)
    decreases j - attempt
  {
    if attempt < j {
      RetriedFirst(maxRetries, func, attempt + 1, j);
    }
  }

  /** When every remaining attempt raises, the last attempt's exception is re-raised. */
  lemma {:induction false} RetriedAllRaised<T>(maxRetries: int, func: nat -> Outcome<T>, attempt: nat)
    requires attempt < maxRetries
    requires forall i :: attempt <= i < maxRetries ==> func(i).Raised?
    ensures Retried(maxRetries, func, attempt) == func(maxRetries - 1)
    ensures Retried(maxRetries, func, attempt).Raised?
    decreases maxRetries - attempt
  {
    if attempt < maxRetries - 1 {
      RetriedAllRaised(maxRetries, func, attempt + 1);
    }
  }

  /** With no attempt left the wrapper raises `RuntimeError` without calling anything. */
  lemma RetriedNone<T>(maxRetries: int, func: nat -> Outcome<T>)
    requires maxRetries <= 0
    ensures Retried(maxRetries, func, 0) == Raised(RuntimeError)
  {
  }

  /**
   * The decorated call. `calls` counts the attempts made and `delays` lists
   * the sleeps requested; the result is the reference `Retried` from attempt 0.
   */
  method RetryWithBackoff<T>(maxRetries: int, baseDelay: real, func: nat -> Outcome<T>)
    returns (r: Outcome<T>, calls: nat, delays: seq<real>)
    ensures r == Retried(maxRetries, func, 0)
    ensures maxRetries <= 0 ==> r == Raised(RuntimeError) && calls == 0 && delays == []
    ensures maxRetries > 0 ==> 1 <= calls <= maxRetries && r == func(calls - 1)
    ensures forall k :: 0 <= k < calls - 1 ==> func(k).Raised?
    ensures r.Raised? && maxRetries > 0 ==> calls == maxRetries
    ensures calls > 0 ==> |delays| == calls - 1
    ensures forall k :: 0 <= k < |delays| ==> delays[k] == baseDelay * (Pow2(k) as real)
  {
    calls := 0;
    delays := [];
    var attempt: nat := 0;
    while attempt < maxRetries
      invariant maxRetries > 0 ==> attempt < maxRetries
      invariant maxRetries <= 0 ==> attempt == 0
      invariant calls == attempt && |delays| == attempt
      invariant forall k :: 0 <= k < attempt ==> func(k).Raised?
      invariant forall k :: 0 <= k < |delays| ==> delays[k] == baseDelay * (Pow2(k) as real)
      invariant Retried(maxRetries, func, 0) == Retried(maxRetries, func, attempt)
    {
      var outcome := func(attempt);
      calls := calls + 1;
      if outcome.Ok? || attempt == maxRetries - 1 {
        r := outcome;
        return;
      }
      delays := delays + [baseDelay * (Pow2(attempt) as real)];
      attempt := attempt + 1;
    }
    r := Raised(RuntimeError);
  }

  /** The delays form a geometric sequence of ratio 2 starting at `base_delay`. */
  lemma DelaysGeometric(baseDelay: real, delays: seq<real>)
    requires forall k :: 0 <= k < |delays| ==> delays[k] == baseDelay * (Pow2(k) as real)
    ensures delays != [] ==> delays[0] == baseDelay
    ensures forall k :: 0 < k < |delays| ==> delays[k] == 2.0 * delays[k - 1]
  {
    forall k | 0 < k < |delays|
      ensures delays[k] == 2.0 * delays[k - 1]
    {
      BackoffClosedForm(baseDelay, k);
      BackoffClosedForm(baseDelay, k - 1);
      assert delays[k] == Backoff(baseDelay, k);
      assert delays[k - 1] == Backoff(baseDelay, k - 1);
    }
  }
}
