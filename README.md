# Scheduling simulator and producer/consumer buffer, modelled in Dafny

This project models two small operating-systems programs and proves properties of them.

- `scheduling_simulator.c` reads a table of processes. Each process has a pid, an arrival
  time, a burst and a priority. The program then runs one of two CPU schedulers over the
  table in place:
  - First-Come, First-Served (`FCFS`) serves the rows in array order. It fills in the
    start, waiting and turnaround times.
  - Round Robin (`RoundRobin`) repeatedly sweeps the table and gives each arrived,
    unfinished process a slice of at most `quantum` time units. When a process finishes,
    it records the turnaround and waiting times.
- `ProducerConsumer.java` shares one bounded buffer between one producer thread and
  several consumer threads:
  - The buffer is a linked list guarded by three semaphores: `mutex`, `empty` and `full`.
  - The producer with pid `p` puts the items `p*10 + i`.
  - Each consumer takes the oldest item.
  - `main` turns the first data row of the input into the producer and every later row
    into a consumer.

Files:

- `process.dfy` (module `Processes`): the process record and the "loaded" table, in which
  every remaining time equals its burst.
- `fcfs.dfy` (module `FirstComeFirstServed`):
  - the specification `Schedule`, with the clock functions `ClockAfter` and `StartOf`;
  - the in-place method `Fcfs`;
  - lemmas about `Schedule`.
- `round_robin.dfy` (module `RoundRobin`):
  - the specification functions `Step` (one iteration of the inner loop), `Sweep` (the
    inner loop) and `Execute` (the outer loop);
  - the in-place methods `SweepInPlace` and `RoundRobinSchedule`;
  - an invariant `Inv` that both loops preserve;
  - lemmas about completion, slices and non-termination;
  - the idle-aware variant described under "Findings".
- `producer_consumer.dfy` (module `ProducerConsumer`):
  - the class `Buffer`;
  - the producer's item numbering;
  - the role assignment of `main`;
  - `Turn` and `RunTurns`, the semantics of the threads' run loops interleaved by an explicit schedule, and lemmas about them;
  - `RunThreads`, which runs that schedule against a `Buffer` object.

The model works sequentially:

- A semaphore is its count of free permits.
- An `acquire` that would block is not enabled. For the buffer's operations this is a
  precondition. In `Turn` and `RunThreads` the thread simply does not move on that turn.
- A `release` adds one permit.

The as-written `RoundRobin` can loop forever. Where it would, the model stops and reports
`RunsForever`. The lemmas `IdleSweepChangesNothing` and `NoQuantumCompletesNothing` prove
that in each such case the C loop never returns.

## Model

| member | source | states |
|---|---|---|
| `FirstComeFirstServed.Fcfs` | scheduling_simulator.c:34-52 | The loop leaves the array equal to `Schedule` of the input table, with each entry updated in place and the clock carried from row to row. |
| `FirstComeFirstServed.ServedInArrayOrder` | scheduling_simulator.c:39-43 | Row k keeps its job (pid, arrival, burst, priority, remaining time). There is no reordering. It starts at the later of two times: its own arrival, or the end of row k-1 (0 for the first row). |
| `FirstComeFirstServed.WaitingIsDelaySinceArrival` | scheduling_simulator.c:40-44 | The waiting time equals start time minus arrival and is never negative. |
| `FirstComeFirstServed.TurnaroundIsWaitPlusBurst` | scheduling_simulator.c:45 | The turnaround time equals the waiting time plus the burst, which is the time from arrival to completion. |
| `FirstComeFirstServed.ConsecutiveRunsDoNotOverlap` | scheduling_simulator.c:40-46 | The clock after row k equals its start plus its burst, and row k+1 starts no earlier. |
| `FirstComeFirstServed.RunsDoNotOverlap` | scheduling_simulator.c:39-46 | With no negative bursts, every later row starts after row j has finished. |
| `FirstComeFirstServed.ClockCoversBursts` | scheduling_simulator.c:39-46 | The clock after k rows is at least the sum of their bursts. |
| `FirstComeFirstServed.ClockIsBurstSum` | scheduling_simulator.c:39-46 | When every process arrives at 0 and no burst is negative, the clock after k rows equals the sum of their bursts. |
| `FirstComeFirstServed.AllPresentWaitForPredecessors` | scheduling_simulator.c:39-46 | When every process arrives at 0 and no burst is negative, row k waits exactly for the bursts of the rows before it. |
| `RoundRobin.SweepInPlace` | scheduling_simulator.c:71-86 | The inner for loop leaves the array, `current_time` and `completed` equal to `Sweep` of the state it started from. |
| `RoundRobin.RoundRobinSchedule` | scheduling_simulator.c:64-87 | The outer while loop leaves the array as `Execute` from clock 0 and `completed` 0. It reports `Terminates` exactly when that run finishes, and `RunsForever` where the C loop never exits. |
| `RoundRobin.StepFrame` | scheduling_simulator.c:72-84 | One iteration changes only entry i, `current_time` and `completed`, and keeps every job. The clock advances by exactly the work taken off the table. |
| `RoundRobin.StepRunsOneSlice` | scheduling_simulator.c:72-84 | With a positive quantum, a runnable process gets a slice of min(remaining, quantum). Its remaining time drops by the slice and never goes below 0, and the clock advances by the same amount. If the slice brings the remaining time to 0, the process completes at the new clock: turnaround = new clock - arrival, waiting = turnaround - burst, and `completed` goes up by one. Any other slice leaves `completed`, turnaround and waiting unchanged. A process that is not runnable leaves the state unchanged. |
| `RoundRobin.InvInitially` | scheduling_simulator.c:26 | A table loaded with remaining time equal to burst, at clock 0 with `completed` 0, satisfies the loop invariant. |
| `RoundRobin.StepKeepsInv` | scheduling_simulator.c:72-84 | With a positive quantum, one iteration keeps the invariant. Unfinished processes satisfy 0 <= remaining <= burst. A process that has run satisfies arrival + work done <= clock. A finished process has waiting = turnaround - burst and burst <= turnaround. `completed` counts exactly the finished processes. |
| `RoundRobin.SweepGivesAtMostOneSlice` | scheduling_simulator.c:71-86 | With a positive quantum, in one sweep a process whose remaining time is not negative loses between 0 and `quantum`. It loses exactly min(remaining, quantum) if it was runnable when the sweep began. |
| `RoundRobin.SweepShrinksPending` | scheduling_simulator.c:70-86 | With a positive quantum, a sweep that finds a runnable process strictly reduces the total remaining work. This is the termination measure of the outer loop. |
| `RoundRobin.IdleSweepChangesNothing` | scheduling_simulator.c:70-72 | A sweep that finds no arrived, unfinished process leaves the whole state unchanged, so the outer loop repeats it forever. |
| `RoundRobin.NoQuantumCompletesNothing` | scheduling_simulator.c:74-83 | With quantum <= 0 no sweep increases `completed`, so for n > 0 the outer loop never exits. |
| `RoundRobin.ExecuteKeepsInv` | scheduling_simulator.c:70-87 | The whole run keeps the invariant and every job. It leaves start times alone and conserves clock + remaining work. When it finishes, every process is finished. |
| `RoundRobin.FinishedRunServesEveryProcess` | scheduling_simulator.c:70-87 | When RoundRobin returns on a loaded table, the following hold. For every process: remaining is 0; waiting = turnaround - burst >= 0; arrival + turnaround <= final clock; the job is unchanged. The final clock equals the total burst. The quantum was positive and every burst was positive. Each process's exact turnaround (the clock at its completion minus its arrival) is stated per slice by `StepRunsOneSlice`. |
| `RoundRobin.NonPositiveBurstNeverFinishes` | scheduling_simulator.c:70-83 | If some burst is <= 0, RoundRobin never returns. |
| `RoundRobin.AllPresentAtStartFinishes` | scheduling_simulator.c:70-87 | If every process arrives by time 0, a positive quantum and positive bursts make RoundRobin return. |
| `RoundRobin.RoundRobinIdleAware` | scheduling_simulator.c:64-87 | The corrected loop leaves the array as `ExecuteIdleAware`: when nothing is runnable, it first moves the clock to the earliest pending arrival. |
| `RoundRobin.IdleAwareServesEveryProcess` | scheduling_simulator.c:70-87 | With a positive quantum and positive bursts, the corrected loop always returns, for any arrival times. Every process is finished with its job and start time unchanged. Its waiting time is turnaround - burst and is at least 0, and arrival + turnaround <= final clock. The final clock is at least the total burst. Each process's exact turnaround (the clock at its completion minus its arrival) is stated per slice by `StepRunsOneSlice`. |
| `RoundRobin.IdleAwareAgreesWhenFinished` | scheduling_simulator.c:70-87 | Wherever the as-written loop returns, the corrected loop returns the same state. |
| `RoundRobin.LateFirstArrivalHangs` | scheduling_simulator.c:70-72 | A single process arriving at 1 makes RoundRobin stuck at clock 0, while the corrected loop finishes. |
| `RoundRobin.IdleGapHangs` | scheduling_simulator.c:70-72 | Process 1 arrives at 0 with burst 1, process 2 arrives at 5, and the quantum is 2. RoundRobin gets stuck at clock 1 with one process done, while the corrected loop finishes. |
| `ProducerConsumer.Buffer.constructor` | ProducerConsumer.java:8-12 | A new buffer is empty, with capacity 5, `mutex` 1, `empty` 5 and `full` 0, and satisfies the buffer invariant. |
| `ProducerConsumer.Buffer.Produce` | ProducerConsumer.java:14-22 | Enabled only while `empty > 0`. Appends the item at the tail and leaves earlier items unchanged. Decrements `empty`, increments `full` and keeps the invariant: `mutex == 1` between operations, `full == size`, `empty + full == capacity == 5`. |
| `ProducerConsumer.Buffer.Consume` | ProducerConsumer.java:24-33 | Enabled only while `full > 0`. Returns the oldest item and leaves the rest in order. Decrements `full`, increments `empty` and keeps the invariant. |
| `ProducerConsumer.ProducerItems` | ProducerConsumer.java:45-47 | A producer's first k iterations put k items, and item i is pid*10 + i. |
| `ProducerConsumer.ProducerItemsIncrease` | ProducerConsumer.java:45-47 | A producer's items strictly increase, so they are distinct. |
| `ProducerConsumer.ProducerItemsDisjoint` | ProducerConsumer.java:47 | Two producers with different pids never put the same item while neither runs more than 10 iterations. |
| `ProducerConsumer.ProducerItemsCollideAfterTen` | ProducerConsumer.java:47 | From an eleventh iteration on, the numbering repeats: producer 1's item 10 and producer 2's item 0 are both 20. |
| `ProducerConsumer.AssignRoles` | ProducerConsumer.java:88-103 | Row k becomes a producer iff k == 0 and a consumer otherwise. Its pid comes from column 0 and its burst time from column 2. The result is an error at exactly the first row that has no column 2. |
| `ProducerConsumer.RunThreads` | ProducerConsumer.java:36-76 | Running the threads' loops against the shared buffer in the order of the schedule leaves the buffer's contents, each thread's loop counter, and the items put and taken equal to `RunTurns` of the starting buffer. The buffer invariant holds afterwards. |
| `ProducerConsumer.RunTurnsConsistent` | ProducerConsumer.java:14-76 | Under any interleaving, from a buffer of at most 5 items, the following hold after every turn. The buffer never holds more than 5 items. Each thread's loop count stays within its burst time. The number of items put equals the producers' loop counts, and the number taken equals the consumers'. Items taken, followed by those still queued, are the starting items followed by the items put, in order (first in, first out, nothing lost or duplicated). With one producer first, the items put are exactly `ProducerItems(pid, count)`. |
| `ProducerConsumer.EveryItemDelivered` | ProducerConsumer.java:36-76 | Starting from an empty buffer with one producer: once the consumers have run as many iterations as the producer, they have taken exactly the producer's items, in production order, and the buffer is empty. |
| `ProducerConsumer.EmptyBufferBlocksConsumer` | ProducerConsumer.java:24-33 | A consumer's turn on an empty buffer does nothing. With producer 1 (two iterations) and one consumer, the consumer then takes 10 and 11 in order. |
| `ProducerConsumer.FullBufferBlocksProducer` | ProducerConsumer.java:14-22 | A producer's turn on a buffer holding 5 items does nothing. After a consumer takes the oldest item, the producer puts its item 10. |

## Left out

- Reading the input is not modelled: `fopen`, `fgets`, `fscanf` in `readProcesses`, and `BufferedReader`, `split`, `parseInt` and the header line in `main`. The model is given the parsed table or the parsed rows. The `remaining_time = burst` setup of `readProcesses` appears as the predicate `Loaded`. The missing `MAX_PROCESSES` bound check when reading is not modelled.
- The `scanf` menu of `main`, all `printf`/`println` output and the Gantt chart are not modelled.
- The floating-point totals and averages (`total_wt`, `total_tat`, `/ n`) are not modelled.
- C's 32-bit `int` is modelled as unbounded integers. An overflow of the clock or of the times is not modelled.
- `ProducerConsumer.ProducerItems`: Java's `int` is 32-bit, so `pid * 10 + i` wraps around once it passes 2147483647 (pid 214748364 puts 2147483647 as item 7 and -2147483648 as item 8). The model uses unbounded integers, so it states the numbering without that wrap-around.
- `ProducerConsumer.ProducerItemsIncrease`: proved for unbounded integers. It holds for the Java program only while `pid * 10 + i` stays within 32 bits; past that the items wrap around and stop increasing.
- `RoundRobin.FinishedRunServesEveryProcess` and `RoundRobin.IdleAwareServesEveryProcess`: for the whole run they bound each turnaround time (burst <= turnaround, arrival + turnaround <= final clock) rather than giving its exact value. The run-level state does not record the clock at which each process completed. The exact value, completion clock minus arrival, is stated for the slice that completes the process by `RoundRobin.StepRunsOneSlice`.
- The C functions take the array and a count `n`. The model uses an array whose length is `n`.
- `start_time`, `waiting_time` and `turnaround_time` are uninitialised in the C table until a scheduler sets them. The model takes whatever values the table holds and proves that RoundRobin leaves `start_time` untouched.
- `RoundRobin.RoundRobinSchedule` covers inputs on which the C loop never ends (quantum <= 0, or no arrived unfinished process at the start of a sweep). There the method returns `RunsForever` instead of looping. With quantum <= 0 it returns at once, because no slice can ever finish a process.
- Threads are not modelled: `Thread` subclassing, `start`/`join`, `Thread.sleep` pacing, semaphore blocking and wake-up order, fairness and deadlock-freedom. `RunThreads` covers each explicit interleaving, not the scheduler that picks one.
- The `InterruptedException` paths of the run loops are not modelled.
- The buffer's capacity is the fixed 5 of the source. The source never reads its `capacity` field; `empty` starts at the literal 5, and the invariant ties the two together. There is no cancellation or shutdown path, because the source has none.
- `ProducerConsumer.Buffer.Consume`: the consumer's pid parameter only labels log lines, so it is dropped.

## Findings

| source | as written | input that shows it | evidently intended | confidence | as-written member | corrected member |
|---|---|---|---|---|---|---|
| scheduling_simulator.c:70-72 | The outer loop advances `current_time` only by running a process. When no unfinished process has arrived yet, a sweep changes nothing, and `while (completed < n)` loops forever. | Process 1 arrives at 0 with burst 1, process 2 arrives at 5 with burst 1, and the quantum is 2. The loop is stuck at time 1 (also: a single process arriving at 1). | When the CPU would be idle, move `current_time` to the earliest arrival among unfinished processes. | not executed | `RoundRobin.IdleGapHangs` | `RoundRobin.RoundRobinIdleAware` |
