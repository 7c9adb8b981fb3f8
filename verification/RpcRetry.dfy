/** The retry loop around every RPC query (indexer/services/query/retry.go).
    The n-th call answers results(n); clock(n) is the number of milliseconds since the start when it has answered. */
module RpcRetry {
  import opened Common

  datatype Reply<T> = Answered(value: T) | Failed(message: string)

  predicate PartAt(s: string, part: string, i: nat) {
    i + |part| <= |s| && s[i..i + |part|] == part
  }

  predicate Contains(s: string, part: string) {
    exists i | 0 <= i <= |s| :: PartAt(s, part, i)
  }

  /** Errors that are not worth another attempt. */
  predicate IsFinal(message: string) {
    || Contains(message, "response validation failed")
    || Contains(message, "connection refused")
    || (Contains(message, "-32601") && Contains(message, "not available"))
    || Contains(message, "-32602")
  }

  lemma ContainsIff(s: string, part: string)
    ensures Contains(s, part) <==> exists before, after :: s == before + part + after
  {
    if Contains(s, part) {
      var i :| 0 <= i <= |s| && PartAt(s, part, i);
      assert s == s[..i] + part + s[i + |part|..];
    }
    if before, after :| s == before + part + after {
      assert PartAt(s, part, |before|);
    }
  }

  /** The text occurs somewhere in the message. */
  ghost predicate Says(message: string, text: string) {
    exists before, after :: message == before + text + after
  }

  lemma FinalIff(message: string)
    ensures IsFinal(message) <==>
              || Says(message, "response validation failed")
              || Says(message, "connection refused")
              || (Says(message, "-32601") && Says(message, "not available"))
              || Says(message, "-32602")
  {
    ContainsIff(message, "response validation failed");
    ContainsIff(message, "connection refused");
    ContainsIff(message, "-32601");
    ContainsIff(message, "not available");
    ContainsIff(message, "-32602");
  }

  const SLEEP_MILLIS := 100

  /** The n-th call is followed by another one. */
  predicate GoesOn<T>(results: nat -> Reply<T>, clock: nat -> int, minRetries: int, maxMillis: int, n: nat) {
    results(n).Failed? && !IsFinal(results(n).message) && (n < minRetries || clock(n) < maxMillis)
  }

  /** The last call is the first one that is not followed by another. */
  ghost predicate IsLastCall<T>(results: nat -> Reply<T>, clock: nat -> int, minRetries: int, maxMillis: int, n: nat) {
    && !GoesOn(results, clock, minRetries, maxMillis, n)
    && forall i: nat :: i < n ==> GoesOn(results, clock, minRetries, maxMillis, i)
  }

  /** The time between two calls is at least the sleep. */
  ghost predicate ClockAdvances(clock: nat -> int) {
    clock(0) >= 0 && forall n: nat :: clock(n + 1) >= clock(n) + SLEEP_MILLIS
  }

  function CeilDiv(a: int, b: int): int
    requires b > 0
  {
    (a + b - 1) / b
  }

  /** The most calls the options allow. */
  function CallBound(minRetries: int, maxMillis: int): int {
    Max(0, Max(minRetries, CeilDiv(maxMillis, SLEEP_MILLIS))) + 1
  }

  lemma {:induction false} ClockAtLeast(clock: nat -> int, n: nat)
    requires ClockAdvances(clock)
    ensures clock(n) >= SLEEP_MILLIS * n
  {
    if n > 0 {
      ClockAtLeast(clock, n - 1);
      assert clock(n - 1 + 1) >= clock(n - 1) + SLEEP_MILLIS;
    }
  }

  lemma LateCallIsLast<T>(results: nat -> Reply<T>, clock: nat -> int, minRetries: int, maxMillis: int, n: nat)
    requires ClockAdvances(clock) && GoesOn(results, clock, minRetries, maxMillis, n)
    ensures n + 1 < CallBound(minRetries, maxMillis)
  {
    ClockAtLeast(clock, n);
  }

  /** Some call is not followed by another: without that the loop goes on for ever. */
  ghost predicate Stops<T>(results: nat -> Reply<T>, clock: nat -> int, minRetries: int, maxMillis: int) {
    exists n: nat :: !GoesOn(results, clock, minRetries, maxMillis, n)
  }

  /** Whenever the loop stops at all: the first success is returned at once, and otherwise the error of the first
      call. */
  method QueryWithRetry<T>(results: nat -> Reply<T>, clock: nat -> int, minRetries: int, maxMillis: int)
    returns (reply: Reply<T>, calls: nat)
    requires Stops(results, clock, minRetries, maxMillis)
    ensures calls >= 1 && IsLastCall(results, clock, minRetries, maxMillis, calls - 1)
    ensures reply == if results(calls - 1).Answered? then results(calls - 1) else results(0)
  {
    ghost var last: nat :| !GoesOn(results, clock, minRetries, maxMillis, last);
    var tryCount := -1;
    var firstError: Option<string> := None;
    while true
      invariant -1 <= tryCount < last
      invariant forall i: nat :: i <= tryCount ==> GoesOn(results, clock, minRetries, maxMillis, i)
      invariant firstError.Some? <==> tryCount >= 0
      invariant firstError.Some? ==> results(0) == Failed(firstError.value)
      decreases last - tryCount
    {
      tryCount := tryCount + 1;
      var result := results(tryCount);
      if result.Answered? {
        return result, tryCount + 1;
      }
      if firstError.None? {
        firstError := Some(result.message);
      }
      if IsFinal(result.message) {
        return Failed(firstError.value), tryCount + 1;
      }
      if tryCount >= minRetries && clock(tryCount) >= maxMillis {
        return Failed(firstError.value), tryCount + 1;
      }
      assert GoesOn(results, clock, minRetries, maxMillis, tryCount);
    }
  }

  /** With a clock that advances at least by the sleep between calls, the loop stops within the bounded number of
      calls. */
  lemma StopsInTime<T>(results: nat -> Reply<T>, clock: nat -> int, minRetries: int, maxMillis: int)
    requires ClockAdvances(clock)
    ensures Stops(results, clock, minRetries, maxMillis)
    ensures forall n: nat :: IsLastCall(results, clock, minRetries, maxMillis, n) ==>
      n + 1 <= CallBound(minRetries, maxMillis)
  {
    var bound := CallBound(minRetries, maxMillis);
    if GoesOn(results, clock, minRetries, maxMillis, bound) {
      LateCallIsLast(results, clock, minRetries, maxMillis, bound);
    }
    forall n: nat | IsLastCall(results, clock, minRetries, maxMillis, n) ensures n + 1 <= bound {
      if n >= bound {
        LateCallIsLast(results, clock, minRetries, maxMillis, bound - 1);
      }
    }
  }

  /** The wall clock may be set back. With one that never reaches the maximum duration, failing calls have no end. */
  lemma NoBoundWithoutClock<T>(results: nat -> Reply<T>, clock: nat -> int, minRetries: int, maxMillis: int)
    requires forall n: nat :: results(n).Failed? && !IsFinal(results(n).message) && clock(n) < maxMillis
    ensures !Stops(results, clock, minRetries, maxMillis)
  {
  }

  lemma LastCallUnique<T>(results: nat -> Reply<T>, clock: nat -> int, minRetries: int, maxMillis: int, m: nat, n: nat)
    requires IsLastCall(results, clock, minRetries, maxMillis, m)
        && IsLastCall(results, clock, minRetries, maxMillis, n)
    ensures m == n
  {
  }

  /** What a failed query tells: all calls failed, and unless the last error was final, the minimum number of retries
      was made and the time was up. */
  lemma FailureMeans<T>(results: nat -> Reply<T>, clock: nat -> int, minRetries: int, maxMillis: int, n: nat)
    requires IsLastCall(results, clock, minRetries, maxMillis, n) && results(n).Failed?
    ensures forall i: nat :: i <= n ==> results(i).Failed?
    ensures IsFinal(results(n).message) || (n >= minRetries && clock(n) >= maxMillis)
    ensures forall i: nat :: i < n ==> !IsFinal(results(i).message)
  {
    forall i: nat | i <= n ensures results(i).Failed? && (i < n ==> !IsFinal(results(i).message)) {
      assert i < n ==> GoesOn(results, clock, minRetries, maxMillis, i);
    }
  }

  /** A success is returned exactly if some call succeeds before any error is final and before the retries run out. */
  lemma SucceedsIff<T>(results: nat -> Reply<T>, clock: nat -> int, minRetries: int, maxMillis: int, n: nat)
    requires IsLastCall(results, clock, minRetries, maxMillis, n)
    ensures results(n).Answered? <==>
              exists k: nat :: results(k).Answered? && forall i: nat :: i < k ==>
                GoesOn(results, clock, minRetries, maxMillis, i)
  {
    if k: nat :| results(k).Answered? && forall i: nat :: i < k ==> GoesOn(results, clock, minRetries, maxMillis, i) {
      assert IsLastCall(results, clock, minRetries, maxMillis, k);
      LastCallUnique(results, clock, minRetries, maxMillis, k, n);
    }
  }
}
