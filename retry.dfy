/**
 * The Retrying Locator: `getNavElementsAsync`. A callback `fn(retryCount)`
 * looks the elements up once; on success it resolves the promise, on failure
 * it rejects the promise when `retryCount >= maxRetryTimes` and, whether or
 * not it rejected, schedules `fn(retryCount + 1)` on a timer. Timers are
 * replaced by the sequence of lookup outcomes the attempts observe.
 */
module Retry {
  import opened Wrappers
  import opened Promises

  /** The budget `setNavColorAsync` passes. */
  const MaxRetryTimes: int := 300

  /** The effect of `fn(retryCount)` on the promise, given what its lookup returned. */
  function Step<T, E>(s: Settlement<T, E>, retryCount: nat, outcome: Result<T, E>, maxRetryTimes: int): Settlement<T, E>
  {
    match outcome
    case Success(v) => Settle(s, Resolved(v))
    case Failure(e) => if retryCount >= maxRetryTimes then Settle(s, Rejected(e)) else s
  }

  /** The promise after attempts 0, 1, ..., |outcomes| - 1 saw `outcomes`, in that order. */
  function SettledAfter<T, E>(outcomes: seq<Result<T, E>>, maxRetryTimes: int): Settlement<T, E>
  {
    if outcomes == [] then Pending
    else
      var n := |outcomes| - 1;
      Step(SettledAfter(outcomes[..n], maxRetryTimes), n, outcomes[n], maxRetryTimes)
  }

  ghost predicate AllFail<T, E>(outcomes: seq<Result<T, E>>)
  {
    forall i :: 0 <= i < |outcomes| ==> outcomes[i].Failure?
  }

  /**
   * How many lookups are made when the page answers the k-th one with
   * `lookups[k]`: attempts continue through every failure and stop right
   * after the first success, or when the outcomes run out.
   */
  function AttemptsMade<T, E>(lookups: seq<Result<T, E>>): (n: nat)
    ensures n <= |lookups|
    ensures n == 0 <==> lookups == []
    ensures forall i :: 0 <= i < n - 1 ==> lookups[i].Failure?
    ensures 0 < n < |lookups| ==> lookups[n - 1].Success?
    ensures n == |lookups| && 0 < n && lookups[n - 1].Failure? ==> AllFail(lookups)
  {
    if lookups == [] then 0
    else if lookups[0].Success? then 1
    else 1 + AttemptsMade(lookups[1..])
  }

  /** The index of the first attempt whose failure rejects the promise. */
  function RejectingAttempt(maxRetryTimes: int): nat
  {
    if maxRetryTimes < 0 then 0 else maxRetryTimes
  }

  /**
   * The closure state of one `getNavElementsAsync` call: the argument of the
   * next scheduled `fn`, whether a call is scheduled, and its promise.
   */
  class RetryingLocator<T, E> {
    const maxRetryTimes: int
    var retryCount: nat
    var scheduled: bool
    var settlement: Settlement<T, E>
    /** The lookup outcomes seen so far, one per attempt. */
    ghost var outcomes: seq<Result<T, E>>

    ghost predicate Valid()
      reads this
    {
      && settlement == SettledAfter(outcomes, maxRetryTimes)
      && (scheduled <==> AllFail(outcomes))
      && retryCount + (if scheduled then 0 else 1) == |outcomes|
    }

    /** The promise executor: nothing settled yet and `fn(0)` about to run. */
    constructor (maxRetryTimes: int)
      ensures Valid() && this.maxRetryTimes == maxRetryTimes
      ensures outcomes == [] && scheduled && retryCount == 0 && settlement == Pending
    {
      this.maxRetryTimes := maxRetryTimes;
      retryCount := 0;
      scheduled := true;
      settlement := Pending;
      outcomes := [];
    }

    method Resolve(v: T)
      modifies this`settlement
      ensures settlement == Settle(old(settlement), Resolved(v))
    {
      if settlement.Pending? {
        settlement := Resolved(v);
      }
    }

    method Reject(e: E)
      modifies this`settlement
      ensures settlement == Settle(old(settlement), Rejected(e))
    {
      if settlement.Pending? {
        settlement := Rejected(e);
      }
    }

    /**
     * One run of `fn(retryCount)` whose lookup returned `outcome`. A failure
     * at or past the budget rejects and still schedules the next attempt;
     * the retry counter grows by exactly one per rescheduled attempt.
     */
    method Attempt(outcome: Result<T, E>)
      requires Valid() && scheduled
      modifies this
      ensures Valid()
      ensures outcomes == old(outcomes) + [outcome]
      ensures settlement == Step(old(settlement), old(retryCount), outcome, maxRetryTimes)
      ensures scheduled == outcome.Failure?
      ensures retryCount == old(retryCount) + (if outcome.Failure? then 1 else 0)
    {
      match outcome {
        case Failure(e) =>
          if retryCount >= maxRetryTimes {
            Reject(e);
          }
          retryCount := retryCount + 1;
          scheduled := true;
        case Success(v) =>
          Resolve(v);
          scheduled := false;
      }
      assert (old(outcomes) + [outcome])[..|old(outcomes)|] == old(outcomes);
      outcomes := outcomes + [outcome];
    }
  }

  /**
   * Drives one `getNavElementsAsync` call: runs every scheduled attempt,
   * feeding the k-th one `lookups[k]`, until no attempt is scheduled or the
   * outcomes run out. Returns the promise state and the number of lookups.
   */
  method Run<T, E>(maxRetryTimes: int, lookups: seq<Result<T, E>>) returns (settlement: Settlement<T, E>, attempts: nat)
    ensures attempts == AttemptsMade(lookups)
    ensures settlement == SettledAfter(lookups[..attempts], maxRetryTimes)
  {
    var locator := new RetryingLocator(maxRetryTimes);
    attempts := 0;
    while locator.scheduled && attempts < |lookups|
      invariant locator.Valid() && locator.maxRetryTimes == maxRetryTimes
      invariant attempts <= |lookups|
      invariant locator.outcomes == lookups[..attempts]
      invariant AttemptsMade(lookups) ==
        if locator.scheduled then attempts + AttemptsMade(lookups[attempts..]) else attempts
      decreases |lookups| - attempts
    {
      assert lookups[attempts..][1..] == lookups[attempts + 1..];
      locator.Attempt(lookups[attempts]);
      attempts := attempts + 1;
    }
    settlement := locator.settlement;
  }

  /** Once settled, later attempts never change the promise. */
  lemma {:induction false} SettlementIsFinal<T, E>(p: seq<Result<T, E>>, q: seq<Result<T, E>>, maxRetryTimes: int)
    requires SettledAfter(p, maxRetryTimes) != Pending
    ensures SettledAfter(p + q, maxRetryTimes) == SettledAfter(p, maxRetryTimes)
  {
    if q == [] {
      assert p + q == p;
    } else {
      var q' := q[..|q| - 1];
      SettlementIsFinal(p, q', maxRetryTimes);
      assert (p + q)[..|p + q| - 1] == p + q';
    }
  }

  /** Failures before the rejecting attempt leave the promise pending. */
  lemma {:induction false} PendingWithinBudget<T, E>(outcomes: seq<Result<T, E>>, maxRetryTimes: int)
    requires AllFail(outcomes) && |outcomes| <= RejectingAttempt(maxRetryTimes)
    ensures SettledAfter(outcomes, maxRetryTimes) == Pending
  {
    if outcomes != [] {
      var n := |outcomes| - 1;
      PendingWithinBudget(outcomes[..n], maxRetryTimes);
    }
  }

  /**
   * A page whose first successful lookup is attempt k <= maxRetryTimes: the
   * promise resolves with that lookup's elements after exactly k + 1 lookups.
   */
  lemma ResolvesAtFirstSuccess<T, E>(lookups: seq<Result<T, E>>, maxRetryTimes: int, k: nat)
    requires k < |lookups| && lookups[k].Success?
    requires forall i :: 0 <= i < k ==> lookups[i].Failure?
    requires k <= RejectingAttempt(maxRetryTimes)
    ensures AttemptsMade(lookups) == k + 1
    ensures SettledAfter(lookups[..k + 1], maxRetryTimes) == Resolved(lookups[k].value)
  {
    PendingWithinBudget(lookups[..k], maxRetryTimes);
    assert lookups[..k + 1][..k] == lookups[..k];
  }

  /**
   * A page that fails every lookup up to the budget: nothing is settled
   * before lookup number maxRetryTimes + 1, which rejects with its own
   * error, and every later prefix of attempts keeps that rejection.
   */
  lemma RejectsWhenBudgetExhausted<T, E>(lookups: seq<Result<T, E>>, maxRetryTimes: int)
    requires RejectingAttempt(maxRetryTimes) < |lookups|
    requires forall i :: 0 <= i <= RejectingAttempt(maxRetryTimes) ==> lookups[i].Failure?
    ensures SettledAfter(lookups[..RejectingAttempt(maxRetryTimes)], maxRetryTimes) == Pending
    ensures AttemptsMade(lookups) > RejectingAttempt(maxRetryTimes)
    ensures forall n :: RejectingAttempt(maxRetryTimes) < n <= |lookups| ==>
      SettledAfter(lookups[..n], maxRetryTimes) == Rejected(lookups[RejectingAttempt(maxRetryTimes)].error)
  {
    var b := RejectingAttempt(maxRetryTimes);
    PendingWithinBudget(lookups[..b], maxRetryTimes);
    var p := lookups[..b + 1];
    assert p[..b] == lookups[..b];
    forall n | b < n <= |lookups|
      ensures SettledAfter(lookups[..n], maxRetryTimes) == Rejected(lookups[b].error)
    {
      SettlementIsFinal(p, lookups[b + 1..n], maxRetryTimes);
      assert p + lookups[b + 1..n] == lookups[..n];
    }
  }

  /**
   * There is no `return` after `reject`: a failure that rejects still
   * schedules the next attempt, so the page goes on being polled, and a
   * success after the rejection is looked up but cannot undo it.
   */
  lemma LateSuccessIsIgnored<T, E>(lookups: seq<Result<T, E>>, maxRetryTimes: int, k: nat)
    requires RejectingAttempt(maxRetryTimes) < k < |lookups| && lookups[k].Success?
    requires forall i :: 0 <= i < k ==> lookups[i].Failure?
    ensures AttemptsMade(lookups) == k + 1
    ensures SettledAfter(lookups[..k + 1], maxRetryTimes) == Rejected(lookups[RejectingAttempt(maxRetryTimes)].error)
  {
    RejectsWhenBudgetExhausted(lookups, maxRetryTimes);
  }
}
