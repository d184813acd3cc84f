/** The executor pool a command draws from: a bounded queue of executors and the state of its circuit. */
module Pools {
  import opened Results

  /** A reusable worker slot; it carries no state of its own. */
  datatype Executor = Executor(id: nat)

  /** One access of a command to the pool's executor channel. */
  datatype Access =
    | Took(executor: Executor)       // a non-blocking receive that found an executor
    | FoundEmpty                     // a non-blocking receive that found none
    | Returned(executor: Executor)   // the send that puts an executor back

  /** The executors a fresh pool's channel is filled with: `capacity` distinct ones. */
  function InitialExecutors(capacity: nat): (executors: seq<Executor>)
    ensures |executors| == capacity
    ensures forall i :: 0 <= i < capacity ==> executors[i] == Executor(i)
    ensures forall i, j :: 0 <= i < j < capacity ==> executors[i] != executors[j]
  {
    seq(capacity, i requires 0 <= i => Executor(i))
  }

  /** The executor queue after a non-blocking take: the head leaves, and an empty queue stays empty. */
  function AfterTake(executors: seq<Executor>): (after: seq<Executor>)
    ensures executors == [] ==> after == []
    ensures executors != [] ==> [executors[0]] + after == executors
  {
    if executors == [] then [] else executors[1..]
  }

  /** The executor queue once an attempt has passed admission: a take happens only with the circuit closed. */
  function AfterAdmission(executors: seq<Executor>, circuitOpen: bool): (after: seq<Executor>)
    ensures circuitOpen ==> after == executors
    ensures !circuitOpen ==> after == AfterTake(executors)
    ensures |after| == if !circuitOpen && executors != [] then |executors| - 1 else |executors|
  {
    if circuitOpen then executors else AfterTake(executors)
  }

  /** The executor queue after one complete attempt, its deferred put included. */
  function AfterAttempt(executors: seq<Executor>, circuitOpen: bool): (after: seq<Executor>)
    ensures multiset(after) == multiset(executors)
    ensures |after| == |executors|
    ensures circuitOpen ==> after == executors
    ensures !circuitOpen && executors != [] ==> after[|after| - 1] == executors[0]
  {
    if circuitOpen || executors == [] then executors
    else
      assert executors == [executors[0]] + AfterTake(executors);
      AfterTake(executors) + [executors[0]]
  }

  /** The accesses of one complete attempt to the executor channel. */
  function AttemptAccesses(executors: seq<Executor>, circuitOpen: bool): (log: seq<Access>)
    ensures circuitOpen ==> log == []
    ensures forall i :: 0 <= i < |log| && log[i].Took? ==> i + 1 < |log| && log[i + 1] == Returned(log[i].executor)
    ensures forall i :: 0 <= i < |log| && log[i].Returned? ==> 0 < i && log[i - 1] == Took(log[i].executor)
  {
    if circuitOpen then []
    else if executors == [] then [FoundEmpty]
    else [Took(executors[0]), Returned(executors[0])]
  }

  class ExecutorPool {
    const name: string
    const capacity: nat
    const circuitOpen: bool          // what `Circuit.IsOpen()` reports
    var executors: seq<Executor>     // the executors buffered in the channel, first to be received first
    ghost var log: seq<Access>       // every access made to the executor channel

    ghost predicate Valid()
      reads this
    {
      |executors| <= capacity
    }

    /** A pool whose channel is filled with `capacity` executors. */
    constructor (name: string, capacity: nat, circuitOpen: bool)
      ensures Valid()
      ensures this.name == name && this.capacity == capacity && this.circuitOpen == circuitOpen
      ensures executors == InitialExecutors(capacity) && log == []
    {
      this.name := name;
      this.capacity := capacity;
      this.circuitOpen := circuitOpen;
      executors := InitialExecutors(capacity);
      log := [];
    }

    /** The receive in a `select` with a `default` case: it never waits. */
    method TryTake() returns (executor: Option<Executor>)
      requires Valid()
      modifies this
      ensures Valid()
      ensures executors == AfterTake(old(executors))
      ensures old(executors) == [] ==> executor == None && log == old(log) + [FoundEmpty]
      ensures old(executors) != [] ==> executor == Some(old(executors)[0]) && log == old(log) + [Took(old(executors)[0])]
    {
      if executors == [] {
        executor := None;
        log := log + [FoundEmpty];
      } else {
        executor := Some(executors[0]);
        executors := executors[1..];
        log := log + [Took(executor.value)];
      }
    }

    /** The send that puts an executor back; it finds room because the executor came out of this channel. */
    method Put(executor: Executor)
      requires Valid() && |executors| < capacity
      modifies this
      ensures Valid()
      ensures executors == old(executors) + [executor] && log == old(log) + [Returned(executor)]
    {
      executors := executors + [executor];
      log := log + [Returned(executor)];
    }
  }
}
