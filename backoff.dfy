/**
 * The bounded exponential back-off shared by the two retrying remote calls
 * (the station listing and the per-plant detail request).  Both loops have
 * the shape `while retries <= max_retries`, count one retry per failed
 * attempt and sleep `base * 2 ** (retries - 1)` seconds before the next one.
 */
module Backoff {

  /** Attempts a `while retries <= maxRetries` loop makes when every attempt fails. */
  function Budget(maxRetries: int): nat
  {
    if maxRetries < 0 then 0 else maxRetries + 1
  }

  function Pow2(k: nat): nat
  {
    if k == 0 then 1 else 2 * Pow2(k - 1)
  }

  /** The delay slept before retry number `retry` (counted from 1). */
  function Delay(base: int, retry: nat): int
    requires retry >= 1
  {
    base * Pow2(retry - 1)
  }

  /** The sleeps of a loop that has retried `sleeps` times, in the order they happen. */
  function Schedule(base: int, sleeps: nat): (s: seq<int>)
    ensures |s| == sleeps
    ensures forall k :: 0 <= k < sleeps ==> s[k] == Delay(base, k + 1)
  {
    if sleeps == 0 then [] else Schedule(base, sleeps - 1) + [Delay(base, sleeps)]
  }

  /** A loop that made `calls` attempts slept once after every attempt but the last. */
  function SleepsAfter(calls: nat): nat
  {
    if calls == 0 then 0 else calls - 1
  }

  function Sum(s: seq<int>): int
  {
    if s == [] then 0 else Sum(s[..|s| - 1]) + s[|s| - 1]
  }

  /** Each delay of the schedule is twice the one before it. */
  lemma ScheduleDoubles(base: int, sleeps: nat, k: nat)
    requires 0 < k < sleeps
    ensures Schedule(base, sleeps)[k] == 2 * Schedule(base, sleeps)[k - 1]
  {
  }

  /** With the defaults (three retries, base 5) the delays are 5, 10 and 20 seconds. */
  lemma DefaultSchedule()
    ensures Schedule(5, Budget(3) - 1) == [5, 10, 20]
  {
    assert Pow2(2) == 4;
  }

  /** The whole waiting time of `sleeps` retries is base * (2^sleeps - 1). */
  lemma {:induction false} ScheduleTotal(base: int, sleeps: nat)
    ensures Sum(Schedule(base, sleeps)) == base * (Pow2(sleeps) - 1)
  {
    if sleeps > 0 {
      ScheduleTotal(base, sleeps - 1);
      var s := Schedule(base, sleeps);
      var prev := Schedule(base, sleeps - 1);
      var p: int := Pow2(sleeps - 1);
      assert s == prev + [base * p];
      assert s[..|s| - 1] == prev;
      assert Sum(s) == Sum(prev) + base * p;
      Doubling(base, p);
    }
  }

  lemma Doubling(base: int, p: int)
    ensures base * (p - 1) + base * p == base * (2 * p - 1)
  {
  }
}
