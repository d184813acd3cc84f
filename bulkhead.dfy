/**
 * Several attempts against one shared pool. Each attempt is the one `Command.TryRun` performs;
 * what differs is whether an attempt's deferred put happens before the next attempt takes.
 */
module Bulkhead {
  import opened Results
  import opened Pools
  import opened Hystrix

  /** Attempts one after another: each, its deferred put included, ends before the next starts. */
  function Sequential<V>(circuitOpen: bool, executors: seq<Executor>, races: seq<RaceOutcome<V>>, fallback: Error -> Result<V>)
    : (outcome: (seq<Result<V>>, seq<Executor>))
    ensures |outcome.0| == |races|
    ensures |outcome.1| == |executors|
    decreases |races|
  {
    if races == [] then ([], executors)
    else
      var rest := Sequential(circuitOpen, AfterAttempt(executors, circuitOpen), races[1..], fallback);
      ([Attempt(circuitOpen, executors != [], races[0], fallback)] + rest.0, rest.1)
  }

  /**
   * No executor leaks: however the attempts end (success, run error, timeout), the pool keeps the
   * same executors, and every attempt is admitted exactly when the pool started non-empty.
   */
  lemma {:induction false} SequentialNoLeak<V>(circuitOpen: bool, executors: seq<Executor>, races: seq<RaceOutcome<V>>, fallback: Error -> Result<V>)
    ensures multiset(Sequential(circuitOpen, executors, races, fallback).1) == multiset(executors)
    ensures forall i :: 0 <= i < |races| ==>
              Sequential(circuitOpen, executors, races, fallback).0[i] == Attempt(circuitOpen, executors != [], races[i], fallback)
    decreases |races|
  {
    if races != [] {
      var after := AfterAttempt(executors, circuitOpen);
      SequentialNoLeak(circuitOpen, after, races[1..], fallback);
      assert (after != []) == (executors != []);
      var results := Sequential(circuitOpen, executors, races, fallback).0;
      forall i | 0 < i < |races|
        ensures results[i] == Attempt(circuitOpen, executors != [], races[i], fallback)
      {
        assert races[1..][i - 1] == races[i];
      }
    }
  }

  /** After any attempts at all, with the circuit closed, a fresh attempt still gets an executor. */
  lemma FreshAttemptAdmitted<V>(executors: seq<Executor>, earlier: seq<RaceOutcome<V>>, result: Result<V>, fallback: Error -> Result<V>)
    requires executors != [] && result.error.None?
    ensures Sequential(false, executors, earlier + [Completed(result)], fallback).0[|earlier|] == result
  {
    SequentialNoLeak(false, executors, earlier + [Completed(result)], fallback);
  }

  /**
   * Attempts that overlap: each reaches the non-blocking take while every earlier one still holds
   * its executor.
   */
  function Overlapping<V>(circuitOpen: bool, executors: seq<Executor>, races: seq<RaceOutcome<V>>, fallback: Error -> Result<V>)
    : (results: seq<Result<V>>)
    ensures |results| == |races|
    decreases |races|
  {
    if races == [] then []
    else
      var left := AfterAdmission(executors, circuitOpen);
      [Attempt(circuitOpen, executors != [], races[0], fallback)] + Overlapping(circuitOpen, left, races[1..], fallback)
  }

  /** The bulkhead: of overlapping attempts, only the first as many as the pool holds are admitted. */
  lemma {:induction false} OverlappingAdmitsAtMostPoolSize<V>(circuitOpen: bool, executors: seq<Executor>, races: seq<RaceOutcome<V>>, fallback: Error -> Result<V>)
    ensures forall i :: 0 <= i < |races| ==>
              Overlapping(circuitOpen, executors, races, fallback)[i] == Attempt(circuitOpen, i < |executors|, races[i], fallback)
    decreases |races|
  {
    if races != [] {
      var left := AfterAdmission(executors, circuitOpen);
      OverlappingAdmitsAtMostPoolSize(circuitOpen, left, races[1..], fallback);
      var results := Overlapping(circuitOpen, executors, races, fallback);
      forall i | 0 < i < |races|
        ensures results[i] == Attempt(circuitOpen, i < |executors|, races[i], fallback)
      {
        assert races[1..][i - 1] == races[i];
        assert !circuitOpen ==> ((i - 1 < |left|) == (i < |executors|));
      }
    }
  }

  /** With the circuit closed, the attempt that arrives when all `N` executors are held gets the pool-full fallback. */
  lemma OneMoreThanCapacityIsRejected<V>(executors: seq<Executor>, races: seq<RaceOutcome<V>>, fallback: Error -> Result<V>)
    requires |races| == |executors| + 1
    ensures Overlapping(false, executors, races, fallback)[|executors|] == fallback(PoolFullError)
  {
  }

  /**
   * Pool of one executor: A's unit of work outlasts its timeout; B arrives while A still holds the
   * executor. A gets the timeout fallback and B the pool-full fallback.
   */
  lemma SoleExecutorScenario<V>(raceOfB: RaceOutcome<V>, fallback: Error -> Result<V>)
    ensures Overlapping(false, [Executor(0)], [TimedOut, raceOfB], fallback) == [fallback(TimeoutError), fallback(PoolFullError)]
  {
  }

  /**
   * The value reaches the caller before the deferred put returns the executor. With one executor,
   * a second command that starts after the first caller received its successful result, but before
   * the put ran, gets the pool-full fallback.
   */
  lemma ResultBeforeReturnWindow<V>(result: Result<V>, raceOfB: RaceOutcome<V>, fallback: Error -> Result<V>)
    requires result.error.None?
    ensures Overlapping(false, [Executor(0)], [Completed(result), raceOfB], fallback) == [result, fallback(PoolFullError)]
  {
  }
}
