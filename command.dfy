/**
 * The command of hystrix/command.go: a runner bound to an executor pool, run once, with its result
 * or its fallback's result delivered on a channel of its own.
 */
module Hystrix {
  import opened Results
  import opened Channels
  import opened Pools

  /** The errors the command hands to the fallback when it produces the failure itself. */
  const CircuitOpenError: Error := Error("circuit open")
  const PoolFullError: Error := Error("executor pool full")
  const TimeoutError: Error := Error("timeout")

  /** The capacity `NewCommand` asks for when it builds the command's pool. */
  const PoolCapacity: nat := 10

  /**
   * The user's runner. `Run` becomes the race outcome given to each attempt; `Fallback` is a total
   * function because the fallback is taken to always write its one result.
   */
  datatype Runner<V> = Runner(poolName: string, timeout: nat, fallback: Error -> Result<V>)

  /** How the race between the unit of work and the timeout ended. */
  datatype RaceOutcome<V> = Completed(result: Result<V>) | TimedOut

  /** The error an attempt hands to the fallback, or None when the run's own result is delivered. */
  function FallbackReason<V>(circuitOpen: bool, available: bool, race: RaceOutcome<V>): (reason: Option<Error>)
    ensures reason.None? <==> !circuitOpen && available && race.Completed? && race.result.error.None?
    ensures !circuitOpen && available && race.Completed? ==> reason == race.result.error
    ensures reason.Some? && reason.value !in {CircuitOpenError, PoolFullError, TimeoutError} ==>
              !circuitOpen && available && race.Completed? && race.result.error == reason
  {
    if circuitOpen then Some(CircuitOpenError)
    else if !available then Some(PoolFullError)
    else match race
      case Completed(r) => r.error
      case TimedOut => Some(TimeoutError)
  }

  /** The one value an attempt sends to its caller. */
  function Attempt<V>(circuitOpen: bool, available: bool, race: RaceOutcome<V>, fallback: Error -> Result<V>): (r: Result<V>)
    ensures FallbackReason(circuitOpen, available, race).None? ==> race.Completed? && r == race.result && r.error.None?
    ensures FallbackReason(circuitOpen, available, race).Some? ==> r == fallback(FallbackReason(circuitOpen, available, race).value)
    ensures r.error.Some? ==> r == fallback(FallbackReason(circuitOpen, available, race).value)
  {
    match FallbackReason(circuitOpen, available, race)
    case None => race.result
    case Some(e) => fallback(e)
  }

  /** The errors the fallback is called with during one attempt. */
  function FallbackCalls(reason: Option<Error>): (calls: seq<Error>)
    ensures |calls| <= 1
    ensures calls == [] <==> reason.None?
    ensures reason.Some? ==> calls == [reason.value]
  {
    match reason
    case None => []
    case Some(e) => [e]
  }

  class Command<V> {
    const runner: Runner<V>
    const resultChannel: Channel<Result<V>>
    const fallbackChannel: Channel<Result<V>>
    const pool: ExecutorPool
    ghost var fallbackErrors: seq<Error>   // every error the fallback was called with, in order

    /** Both private channels are open, empty and of capacity 1, and the pool is consistent. */
    ghost predicate Ready()
      reads this, resultChannel, fallbackChannel, pool
    {
      resultChannel != fallbackChannel &&
      resultChannel.capacity == 1 && resultChannel.buffer == [] && !resultChannel.closed &&
      fallbackChannel.capacity == 1 && fallbackChannel.buffer == [] && !fallbackChannel.closed &&
      pool.Valid()
    }

    /** `NewCommand`: the pool is built for the runner's pool name, with capacity 10. */
    constructor (runner: Runner<V>, circuitOpen: bool)
      ensures Ready()
      ensures this.runner == runner
      ensures fresh(resultChannel) && fresh(fallbackChannel) && fresh(pool)
      ensures resultChannel.capacity == 1 && fallbackChannel.capacity == 1
      ensures pool.name == runner.poolName && pool.capacity == PoolCapacity && pool.circuitOpen == circuitOpen
      ensures pool.executors == InitialExecutors(PoolCapacity) && pool.log == []
      ensures fallbackErrors == []
    {
      this.runner := runner;
      resultChannel := new Channel(1);
      fallbackChannel := new Channel(1);
      pool := new ExecutorPool(runner.poolName, PoolCapacity, circuitOpen);
      fallbackErrors := [];
    }

    /** Runs the command and returns the value its channel receives. */
    method Execute(race: RaceOutcome<V>) returns (result: Result<V>)
      requires Ready()
      modifies this, pool, resultChannel, fallbackChannel
      ensures Ready()
      ensures result == Attempt(pool.circuitOpen, old(pool.executors) != [], race, runner.fallback)
      ensures pool.executors == AfterAttempt(old(pool.executors), pool.circuitOpen)
      ensures pool.log == old(pool.log) + AttemptAccesses(old(pool.executors), pool.circuitOpen)
      ensures fallbackErrors == old(fallbackErrors) + FallbackCalls(FallbackReason(pool.circuitOpen, old(pool.executors) != [], race))
    {
      var channel := Queue(race);
      result := channel.Receive();
    }

    /** Starts the attempt and returns its channel, which holds exactly one value and is closed. */
    method Queue(race: RaceOutcome<V>) returns (channel: Channel<Result<V>>)
      requires Ready()
      modifies this, pool, resultChannel, fallbackChannel
      ensures Ready()
      ensures fresh(channel) && channel.Valid() && channel.capacity == 1
      ensures channel.buffer == [Attempt(pool.circuitOpen, old(pool.executors) != [], race, runner.fallback)]
      ensures channel.closed
      ensures pool.executors == AfterAttempt(old(pool.executors), pool.circuitOpen)
      ensures pool.log == old(pool.log) + AttemptAccesses(old(pool.executors), pool.circuitOpen)
      ensures fallbackErrors == old(fallbackErrors) + FallbackCalls(FallbackReason(pool.circuitOpen, old(pool.executors) != [], race))
    {
      channel := new Channel(1);
      TryRun(channel, race);
    }

    /**
     * One attempt: exactly one value goes to `valueChannel`, which is then closed; a taken executor
     * is put back (after the value is sent, as deferred calls run at the end).
     */
    method TryRun(valueChannel: Channel<Result<V>>, race: RaceOutcome<V>)
      requires Ready()
      requires valueChannel.Valid() && 1 <= valueChannel.capacity && valueChannel.buffer == [] && !valueChannel.closed
      requires valueChannel != resultChannel && valueChannel != fallbackChannel
      modifies this, pool, resultChannel, fallbackChannel, valueChannel
      ensures Ready()
      ensures valueChannel.Valid() && valueChannel.closed
      ensures valueChannel.buffer == [Attempt(pool.circuitOpen, old(pool.executors) != [], race, runner.fallback)]
      ensures pool.executors == AfterAttempt(old(pool.executors), pool.circuitOpen)
      ensures pool.log == old(pool.log) + AttemptAccesses(old(pool.executors), pool.circuitOpen)
      ensures fallbackErrors == old(fallbackErrors) + FallbackCalls(FallbackReason(pool.circuitOpen, old(pool.executors) != [], race))
    {
      if pool.circuitOpen {
        var r := TryFallback(CircuitOpenError);
        valueChannel.Send(r);
      } else {
        var executor := pool.TryTake();
        if executor.Some? {
          var r;
          if race.Completed? {
            // the unit of work writes its result to the command's result channel, and the race reads it
            resultChannel.Send(race.result);
            var result := resultChannel.Receive();
            if result.error.Some? {
              r := TryFallback(result.error.value);
            } else {
              r := result;
            }
          } else {
            r := TryFallback(TimeoutError);
          }
          valueChannel.Send(r);
          pool.Put(executor.value);
        } else {
          var r := TryFallback(PoolFullError);
          valueChannel.Send(r);
        }
      }
      valueChannel.Close();
    }

    /** Starts the fallback with `err` and waits for the one result it writes. */
    method TryFallback(err: Error) returns (result: Result<V>)
      requires Ready()
      modifies this, fallbackChannel
      ensures Ready()
      ensures result == runner.fallback(err)
      ensures fallbackErrors == old(fallbackErrors) + [err]
    {
      fallbackChannel.Send(runner.fallback(err));
      fallbackErrors := fallbackErrors + [err];
      result := fallbackChannel.Receive();
    }
  }

  /** Circuit open: the fallback answers for "circuit open" and the executor channel is not touched. */
  lemma CircuitOpenShortCircuits<V>(executors: seq<Executor>, race: RaceOutcome<V>, fallback: Error -> Result<V>)
    ensures Attempt(true, executors != [], race, fallback) == fallback(CircuitOpenError)
    ensures FallbackCalls(FallbackReason(true, executors != [], race)) == [CircuitOpenError]
    ensures AfterAttempt(executors, true) == executors && AttemptAccesses(executors, true) == []
  {
  }

  /** No executor free: the fallback answers for "executor pool full" and the pool is left as it was. */
  lemma PoolFullFallsBack<V>(race: RaceOutcome<V>, fallback: Error -> Result<V>)
    ensures Attempt(false, false, race, fallback) == fallback(PoolFullError)
    ensures FallbackCalls(FallbackReason(false, false, race)) == [PoolFullError]
    ensures AfterAttempt([], false) == [] && AttemptAccesses([], false) == [FoundEmpty]
  {
  }

  /** The run reports an error: the fallback is called with exactly that error and answers. */
  lemma RunErrorFallsBack<V>(executors: seq<Executor>, result: Result<V>, fallback: Error -> Result<V>)
    requires executors != [] && result.error.Some?
    ensures Attempt(false, executors != [], Completed(result), fallback) == fallback(result.error.value)
    ensures FallbackCalls(FallbackReason(false, executors != [], Completed(result))) == [result.error.value]
    ensures AttemptAccesses(executors, false) == [Took(executors[0]), Returned(executors[0])]
  {
  }

  /** The run succeeds: its result is delivered unchanged and the fallback is not called. */
  lemma SuccessDelivered<V>(executors: seq<Executor>, result: Result<V>, fallback: Error -> Result<V>)
    requires executors != [] && result.error.None?
    ensures Attempt(false, executors != [], Completed(result), fallback) == result
    ensures FallbackCalls(FallbackReason(false, executors != [], Completed(result))) == []
    ensures AttemptAccesses(executors, false) == [Took(executors[0]), Returned(executors[0])]
  {
  }

  /** The timeout wins: the fallback answers for "timeout", and no run result is delivered. */
  lemma TimeoutFallsBack<V>(executors: seq<Executor>, fallback: Error -> Result<V>)
    requires executors != []
    ensures Attempt(false, executors != [], TimedOut, fallback) == fallback(TimeoutError)
    ensures FallbackCalls(FallbackReason<V>(false, executors != [], TimedOut)) == [TimeoutError]
    ensures AttemptAccesses(executors, false) == [Took(executors[0]), Returned(executors[0])]
  {
  }
}
