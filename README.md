# hystrix-go command execution, modelled in Dafny

This project models the command core of hystrix-go (`hystrix/command.go`). A command binds a user
runner to a named executor pool. `Execute` runs the command synchronously and `Queue` runs it
asynchronously. Each attempt (`tryRun`) ends in exactly one of five ways:

- the circuit is open, so the fallback is called with "circuit open";
- no executor is free, so the fallback is called with "executor pool full" without waiting;
- the run reports an error, so the fallback is called with that error;
- the run succeeds, so its result is delivered unchanged;
- the timeout wins the race, so the fallback is called with "timeout".

In every case exactly one value reaches the caller's channel, and the channel is then closed. An
executor taken from the pool goes back to the pool on every exit path.

Layout:

- `results.dfy` (module `Results`): `Option`, an `Error` that carries its message, and the `Result`
  a run or a fallback produces.
- `channels.dfy` (module `Channels`): a buffered Go channel with non-blocking send and receive, and
  close. It is a class whose buffer the operations update.
- `pools.dfy` (module `Pools`): `Executor`, and the `ExecutorPool` class. The pool holds the
  buffered executor channel as a `seq<Executor>`, a read-only circuit flag, and a ghost log of every
  access to the channel. The module also has the pure functions `AfterAttempt` and
  `AttemptAccesses`, which give the queue and the access log after one complete attempt.
- `command.dfy` (module `Hystrix`): the runner, the race outcome, the pure classification
  `FallbackReason` with `Attempt`, and the `Command` class whose `TryRun` takes and puts an
  executor and sends on the channels. Five lemmas state the five outcomes.
- `bulkhead.dfy` (module `Bulkhead`): several attempts against one pool. `Sequential` has each
  attempt finish before the next starts; it shows that no executor leaks. `Overlapping` has each
  attempt arrive while all earlier ones still hold their executors; it shows the pool-full bound.

Each `Command` method is proved against the pure functions. Its `ensures` give the delivered value,
the new executor queue, the pool's new access log and the errors the fallback was called with.
These are all stated in terms of the state before the call.

In `tryRun` the value is sent on the caller's channel (hystrix/command.go:53-77) before the
deferred put returns the executor (hystrix/command.go:57-59), and the deferred close runs last
(hystrix/command.go:50). `TryRun` performs its steps in that order.

## Model

| member | source | states |
|---|---|---|
| Hystrix.FallbackReason | hystrix/command.go:51-78 | the run's own result is kept (no fallback) exactly when the circuit is closed, an executor is free, and the run completes with no error; after a completed run the fallback gets exactly the run's error; any error other than the three built-in ones is the run's own |
| Hystrix.Attempt | hystrix/command.go:49-80 | the value an attempt delivers: the run's own result, free of errors, when there is no fallback reason; otherwise the fallback's answer for that reason; so a result carrying an error always comes from the fallback |
| Hystrix.FallbackCalls | hystrix/command.go:53-77 | one attempt calls the fallback at most once, with exactly the attempt's reason, and never when the run's own result is delivered |
| Hystrix.CircuitOpenShortCircuits | hystrix/command.go:51-53 | with the circuit open, the result is the fallback's answer for "circuit open", the fallback is called once with that error, and the executor channel is not accessed or changed |
| Hystrix.PoolFullFallsBack | hystrix/command.go:75-77 | with no executor free, the result is the fallback's answer for "executor pool full"; the only access is one receive that finds nothing, and the pool is unchanged |
| Hystrix.RunErrorFallsBack | hystrix/command.go:64-67 | a completed run with an error gives the fallback's answer for exactly that error; the head executor is taken and the same executor is put back |
| Hystrix.SuccessDelivered | hystrix/command.go:68-69 | a completed run without an error is delivered unchanged, the fallback is not called, and the taken executor is put back |
| Hystrix.TimeoutFallsBack | hystrix/command.go:71-73 | when the timeout wins, the result is the fallback's answer for "timeout" (no run result is delivered), and the taken executor is put back |
| Hystrix.Command.constructor | hystrix/command.go:25-34 | `NewCommand` stores the runner, makes fresh result and fallback channels of capacity 1, and binds a fresh pool named after the runner's pool name with capacity 10, holding the 10 initial executors |
| Hystrix.Command.Execute | hystrix/command.go:37-40 | returns the single value the queued attempt delivers, and leaves the pool, its log and the fallback calls as `TryRun` describes |
| Hystrix.Command.Queue | hystrix/command.go:43-47 | returns a fresh channel of capacity 1 that holds exactly the attempt's one value and is closed |
| Hystrix.Command.TryRun | hystrix/command.go:49-80 | exactly one value, the attempt's result, is sent on the caller's channel, which is then closed; the executor queue becomes `AfterAttempt` of the old one; the pool log grows by that attempt's accesses; the fallback errors grow by the attempt's one reason, if any; the private channels are empty again |
| Hystrix.Command.TryFallback | hystrix/command.go:82-86 | returns what the fallback writes for `err` on the fallback channel, records one call with `err`, and leaves the channel empty |
| Pools.InitialExecutors | hystrix/command.go:31 | a pool built with capacity N starts with N pairwise distinct executors, executor `i` at position `i` |
| Pools.AfterTake | hystrix/command.go:55-56 | a take removes exactly the head of the queue, and leaves an empty queue empty |
| Pools.AfterAttempt | hystrix/command.go:56-59 | after one attempt the pool holds the same executors as a multiset and has the same size; with the circuit open it is unchanged; otherwise the executor that was taken is now last in the queue |
| Pools.AttemptAccesses | hystrix/command.go:51-77 | there is no access when the circuit is open; every take is immediately followed by a put of the same executor, and every put follows its take |
| Pools.ExecutorPool.constructor | hystrix/command.go:31 | the pool for `NewExecutorPool(name, capacity)` has that name and capacity, the given circuit state, exactly the initial executors and an empty access log |
| Pools.ExecutorPool.TryTake | hystrix/command.go:55-56 | the receive never waits: the queue becomes `AfterTake` of the old one; with an empty channel it returns None, otherwise the head executor; the log records which |
| Pools.ExecutorPool.Put | hystrix/command.go:57-59 | the deferred send appends the executor back to the channel and records it |
| Channels.Channel.constructor | hystrix/command.go:29-30 | `make(chan Result, 1)` gives an open, empty channel of the requested capacity |
| Channels.Channel.Send | hystrix/command.go:53-77 | a send on an open channel with room appends the value to the buffer and leaves it open |
| Channels.Channel.Receive | hystrix/command.go:85 | a receive with a value buffered returns the oldest value and removes it |
| Channels.Channel.Close | hystrix/command.go:50 | `close` marks the channel closed and keeps the values still buffered |
| Bulkhead.Sequential | hystrix/command.go:49-80 | attempts run one after another give one result per attempt and leave a queue of the original size |
| Bulkhead.SequentialNoLeak | hystrix/command.go:56-59 | after any run of sequential attempts, however each one ends, the pool holds the same executors as a multiset; every attempt is admitted exactly when the pool started non-empty, so each result is the single-attempt result |
| Bulkhead.FreshAttemptAdmitted | hystrix/command.go:56-59 | after any earlier attempts (timeouts, errors, successes) against a non-empty pool with the circuit closed, a fresh successful run is still admitted and delivered |
| Bulkhead.Overlapping | hystrix/command.go:55-77 | overlapping attempts give one result each |
| Pools.AfterAdmission | hystrix/command.go:51-56 | passing admission leaves the queue unchanged when the circuit is open; otherwise the head is taken, so the queue shrinks by one exactly when it was non-empty |
| Bulkhead.OverlappingAdmitsAtMostPoolSize | hystrix/command.go:55-77 | of overlapping attempts, attempt `i` is admitted exactly when `i` is less than the number of executors; every later one gets the pool-full path |
| Bulkhead.OneMoreThanCapacityIsRejected | hystrix/command.go:75-77 | with N executors held by N overlapping attempts and the circuit closed, attempt N+1 gets the fallback's answer for "executor pool full" |
| Bulkhead.ResultBeforeReturnWindow | hystrix/command.go:57-77 | pool of one executor: the first caller has its successful result, but the deferred put has not run yet; a command started in that window gets the pool-full fallback |
| Bulkhead.SoleExecutorScenario | hystrix/command.go:55-77 | pool of one executor: A times out and gets the timeout fallback; B, arriving while A holds the executor, gets the pool-full fallback |

## Left out

- Goroutines and the `select` race: the model runs `go` calls in line, one after another. The race
  between the run and `time.After(Timeout())` is an input (`RaceOutcome`), so real time and the
  timeout's length play no part. `Runner.timeout` is kept only as data.
- The run goroutine left behind after a timeout, and its later write to `ResultChannel`: the model
  leaves the result channel empty on a timeout. So the model does not show that a second `Execute`
  on the same command after a timeout could receive that stale result: this happens when the orphaned
  write lands before the second run's own write.
- A fallback that never writes its result (the open TODO at hystrix/command.go:84): the fallback
  is a total function, so every wait for it ends.
- Hystrix.Command.Execute: in the source the caller may receive the value before the deferred put
  returns the executor, because the send on the capacity-1 channel comes first. The pool clauses of
  `Execute` and `Queue` describe the pool once that put has run. So do `Bulkhead.Sequential`,
  `Bulkhead.SequentialNoLeak` and `Bulkhead.FreshAttemptAdmitted`, which assume each put runs
  before the next take. A command started between the delivery and the put is an overlapping
  attempt, as `Bulkhead.ResultBeforeReturnWindow` shows.
- `Runner.Run` and `Runner.Fallback` are user code: the run is the race outcome, and the fallback
  is the function `Error -> Result` held in `Runner`.
- `NewExecutorPool`, `ExecutorPool`, `Executor`, `Circuit` and `Result` are defined in files that
  are not part of this model. The pool constructor fills the channel with `capacity` executors.
  The circuit is a flag given to the command's constructor, and it never changes. The circuit's
  internals (`MarkSuccess`, `MarkFailure`, rolling windows, thresholds) are not modelled. The code
  shown never calls `MarkSuccess` or `MarkFailure`.
- The process-wide pool registry and its lookup by name: each command gets a fresh pool. Sharing
  one pool between commands is covered by the pure `Bulkhead` functions, not by the classes.
- Concurrent take and put on one pool by several commands: `TryRun` models one command's take and
  put. `Overlapping` models only the order in which several commands take before any of them puts.
- Go errors built by `errors.New` differ from each other even when their messages match. The model
  compares errors by message, and that is all a fallback can see of them.
