# flow: a verified model of the job manager

Package `flow` composes fallible operations (`Func`, a function from a
context to an `error`) through a `Flow` job manager. The manager has one
setting, the concurrency level. It offers two combinators:

- `Serial(fs...)` runs the non-nil entries in order and stops at the first error.
- `Parallel(fs...)` puts every entry into a work queue. A pool of
  `concurrencyLevel` workers drains the queue. A coordinator waits for one
  signal per entry, for the first error, or for the outer context to be cancelled.

This project models `flow.go` in Dafny: `flow.dfy` (module `Flow`) and the
test scenarios of `flow_test.go` in `flow_test.dfy` (module `FlowTest`).

How the model represents the source:

- A `Func` is a `Step<S, E>`: a total function from the caller's state `S` to
  the new state and an `Outcome<E>`. `Ok` is Go's nil error. `Err(e)`
  carries a non-nil error, which is passed on verbatim.
- A `[]Func` is a `seq<Option<Step>>`. A nil entry is `None`.
- `Flow` is a class with one `int` field. The constructor `New` takes the
  CPU count as a parameter instead of calling `runtime.NumCPU()`.
- `Serial` has a pure specification, `RunSerial` (built on `SerialFrom`). It
  records the final state, the error, and the indices of the entries that
  ran. The method `Flow.Serial` is the source's `for`/`range` loop, proved
  equal to that specification. Its reference partner is `Compose`, which runs
  every non-nil entry and ignores errors, together with `OutcomeAt`.
- `Parallel` is modelled sequentially, in three parts:
  - Dispatch fills a buffered `Channel` of capacity `len(fs)` and then closes it.
  - The workers run one after another. Each `Worker` is the goroutine body.
    Together they give the pure `Pool`: entries are taken in queue order,
    and a worker that gets an error sends one `Error` and stops.
  - The coordinator `Coordinate` is the counting `select` loop. Its pure
    specification is the fold `Await` over the signals in their arrival order.
- Outer-context cancellation is the parameter `Cancellation`. It is either
  `NotCancelled` or `CancelledAfter(k, e)`: a `Cancelled(e)` signal arrives
  after `k` worker signals. This makes the race between a worker's error and
  a cancellation an explicit input. `Await` returning `None` means the
  coordinator is still waiting, which is how the model shows a hang.

Two behaviours of the code that the model keeps, although one might expect otherwise:

- `Serial` never looks at the context itself (flow.go:49-59). Cancellation
  reaches it only through the entries.
- `Parallel` over an empty list returns nil even when the context is already
  cancelled, because the coordinator loop does not run (flow.go:94).

## Model

| member | source | states |
|---|---|---|
| `Flow.Flow.New` | flow.go:36-40 | the new manager's concurrency level is exactly the given CPU count |
| `Flow.Flow.SetConcurrencyLevel` | flow.go:43-45 | the level becomes exactly `l`, with no validation; the level is the only state and nothing else changes |
| `Flow.SerialFrom` | flow.go:50-58 | the invoked indices are a prefix of the non-nil indices; on success they are all of them; an error implies at least one entry ran |
| `Flow.SerialEmpty` | flow.go:49-59 | over an empty list: nil, state unchanged, nothing invoked |
| `Flow.SerialRanEntries` | flow.go:50-57 | only non-nil entries are invoked, in strictly increasing list order (so each at most once), ending at the failing entry; on nil every non-nil entry was invoked |
| `Flow.SerialAgainstCompose` | flow.go:50-58 | against running every entry regardless of errors: the state is what the first m invoked entries leave; all but the last succeeded; nil exactly when every non-nil entry succeeds (then all ran); otherwise the error of the m-th entry, unchanged |
| `Flow.SerialDependsOnlyOnSteps` | flow.go:51-53 | two lists with the same non-nil entries in the same order give the same state, result and number of invocations |
| `Flow.SerialSkipsNil` | flow.go:51-53 | a nil entry is never invoked, and removing it changes neither the final state nor the result |
| `Flow.RunSerial` | flow.go:48-60 | the specification of `Serial`: the invoked entries are a prefix of the non-nil ones, all of them on nil, at least one on an error |
| `Flow.Flow.Serial` | flow.go:48-60 | the loop with its early return computes exactly `RunSerial`: state, error and invoked indices |
| `Flow.Channel.constructor` | flow.go:70 | a new channel is open and empty, with the given capacity |
| `Flow.Channel.Send` | flow.go:89 | appends the value to an open channel that is not full; the only send, at flow.go:89 into a channel of capacity `len(fs)`, never blocks and never panics, which `Dispatch` proves by meeting this precondition |
| `Flow.Channel.Close` | flow.go:92 | marks the channel closed and keeps its buffer |
| `Flow.Channel.Receive` | flow.go:74 | takes the head of the buffer; a closed, empty channel reports that the range loop ends |
| `Flow.Dispatch` | flow.go:88-92 | all entries are enqueued into a fresh channel of capacity len(fs), in order, and it is then closed; every send meets the not-full precondition, so the queue never overflows |
| `Flow.Handle` | flow.go:75-83 | a nil entry gives a done signal without being invoked and leaves the state unchanged; a success gives done; an error e gives Error(e); a worker never produces a cancellation |
| `Flow.Pool` | flow.go:72-86 | the workers take at most the whole queue and send exactly one signal per entry they take |
| `Flow.PoolSignals` | flow.go:72-86 | with no worker nothing is taken and nothing changes; workers send no cancellation; at most one error per worker; the whole queue is taken unless every worker stopped on an error |
| `Flow.PoolSplit` | flow.go:73-85 | a pool of workers drains the queue as its first worker does, then the remaining workers |
| `Flow.Worker` | flow.go:73-85 | one worker's range loop (skip nil with done, return after sending an error) does exactly what one worker of `Pool` does, and leaves the untaken entries in the channel |
| `Flow.RunPool` | flow.go:72-86 | starting `concurrencyLevel` workers (none when it is 0 or negative) does exactly what `Pool` does; the channel stays closed and holds exactly the entries no worker took |
| `Flow.Await` | flow.go:94-103 | the coordinator fold: nil only after len(fs) done arrivals; still waiting only when fewer arrivals than entries came, all done; an error is the payload of one of the first len(fs) arrivals that is not done |
| `Flow.AwaitDecided` | flow.go:94-103 | if the first k arrivals are done and the next is not: nil when len(fs) <= k; still waiting when the arrivals ran out; otherwise the payload of arrival k, error or cancellation, verbatim |
| `Flow.AwaitOkIff` | flow.go:94-103 | the coordinator returns nil exactly when the first len(fs) arrivals are all done |
| `Flow.Coordinate` | flow.go:94-103 | the counting select loop computes exactly `Await` over the arrival order |
| `Flow.Arrivals` | flow.go:95-97 | the cancellation is placed at its arrival position, and the worker signals keep their order around it |
| `Flow.RunParallel` | flow.go:63-105 | the specification of `Parallel`: with level <= 0 the state is untouched; nil is returned only when no cancellation arrives before the last needed signal; uncancelled, a returned error is one some worker sent |
| `Flow.Flow.Parallel` | flow.go:63-105 | dispatch, workers under the current concurrency level, then the coordinator, which computes exactly `RunParallel` |
| `Flow.ParallelEmpty` | flow.go:94-103 | with no entries: nil and an unchanged state, cancelled or not |
| `Flow.ParallelStarves` | flow.go:72 | with concurrency level <= 0 and a non-empty list nothing is invoked; the wait never ends by itself; a cancellation ends it with its error |
| `Flow.PoolAgainstSerial` | flow.go:74-84 | under the model's schedule (entries taken in queue order, workers one after another) and with at least one worker, the signals are done up to the entry where Serial stops, then that entry's error; on success one done per entry and Serial's final state; with one worker the same state as Serial |
| `Flow.ParallelAgreesWithSerial` | flow.go:63-105 | not cancelled, with level 1: Parallel is Serial, in result and state; with level >= 2, under the model's schedule: Serial's result (the first failing entry in list order gives the error), and Serial's state only when that result is nil |
| `Flow.ParallelOkIffNoError` | flow.go:79-103 | not cancelled, with level >= 1: Parallel returns nil exactly when no worker sends an error |
| `Flow.ParallelCancelledFirst` | flow.go:96-97 | a cancellation that arrives before any worker signal ends a non-empty Parallel with that cancellation's error |
| `FlowTest.CountUp` | flow_test.go:72-86 | the fixture's counter: succeeds exactly while the count is below 2 and then increments it; otherwise sets it to -1 and fails with "Overflow" |
| `FlowTest.ReconfigureThenRun` | flow_test.go:14-64 | a new manager's level is the CPU count and setting it to 2 gives 2; Serial then counts to 2 with nil, and level 0 makes Parallel wait for ever |
| `FlowTest.SerialAllFuncsEndWell` | flow_test.go:105-116 | `[nil, CountUp, CountUp]`: count 2, nil, entries 1 and 2 invoked |
| `FlowTest.SerialFuncIssuesError` | flow_test.go:117-128 | `[nil, CountUp, CountUp, CountUp]`: count -1, error "Overflow", all three invoked |
| `FlowTest.ParallelAllFuncsEndWell` | flow_test.go:170-182 | Parallel at level 3 over two CountUp calls: count 2, nil |
| `FlowTest.ParallelFuncIssuesError` | flow_test.go:183-195 | Parallel at level 3 over three CountUp calls: count -1, error "Overflow" |
| `FlowTest.ParallelCallCtxDone` | flow_test.go:196-209 | a deadline that arrives before the last of the three worker signals makes Parallel return the deadline-exceeded error |

## Left out

- `WrapFunc` (flow.go:17-33) is not modelled. Its behaviour is a race between a detached goroutine and `ctx.Done()`, including the goroutine it leaks. In the model a wrapped function is simply a `Step`.
- Contexts are not modelled: no deadlines, no timing, and no `context.WithCancel` child context. Steps receive no context. Outer cancellation is only the abstract `Cancelled(e)` signal at a chosen arrival position.
- Goroutine scheduling in `Parallel` is fixed to one schedule. The queue is filled and closed before any worker runs. Workers run one after another, and each entry is invoked atomically in queue order. The coordinator's arrival order is the pool's signals, and only the cancellation's position is free. Real workers have no fairness and no order, so this schedule is one of many: under it the first failing entry in list order always gives the returned error.
- `Flow.Parallel`: the returned state is the state after every worker has finished with the queue. The source may return before stragglers finish, and it cancels the child context that those stragglers see. So the count observed in the "Call Ctx Done" test (0 right after the return) is not stated.
- `Flow.ParallelAgreesWithSerial`: with level >= 2, it proves Serial's result, and Serial's state only when that result is nil, and both only under the model's schedule. On an error the model's other workers go on to run the rest of the queue, so the state is then not Serial's. In the source, two workers that each take a failing entry race to send on `errCh` (flow.go:79-80), and the coordinator returns whichever error arrives first (flow.go:99-100). So the source may return the error of any failing entry, and entries whose effects do not commute may leave a state other than Serial's. Two facts whose shape carries over to any schedule are stated separately. `Flow.RunParallel` states that an uncancelled error is an `Error` signal that some worker sent. `Flow.ParallelOkIffNoError` states that nil is returned exactly when no worker sends an error.
- `Flow.PoolAgainstSerial`: with live >= 2 the signals and state it states are those of the model's schedule, not of every interleaving of the source's workers.
- `runtime.NumCPU()` is an environment query. It is replaced by the constructor's parameter.
- `sync.RWMutex` in the test fixture only guards concurrent access. It has no role in a sequential model.
- The test-only `time.Sleep` and the testify assertions are not modelled.
