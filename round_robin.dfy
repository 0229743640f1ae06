/** Round Robin scheduling (function RoundRobin of scheduling_simulator.c), as written,
    together with the idle-aware variant that the source evidently intends.

    The outer loop repeats sweeps over the table until `completed` reaches the number
    of processes. In one sweep every process that has arrived and still has work gets one
    slice of at most `quantum` time units. A sweep that finds no such process leaves every
    variable as it was, so from then on the C loop repeats the same sweep forever; the
    model reports that outcome as `Stuck` instead of looping. */
module RoundRobin {
  import opened Processes

  /** The variables of the C function: the table, `current_time` and `completed`. */
  datatype State = State(procs: seq<Process>, clock: int, completed: int)

  /** Where the outer loop ends: it exits with `completed == n`, or it reaches a state
      from which it would never exit. */
  datatype Run = Finished(state: State) | Stuck(state: State)

  /** What the imperative scheduler reports. */
  datatype Termination = Terminates | RunsForever

  /** The test of the inner loop: the process has arrived and has work left. */
  predicate Runnable(p: Process, clock: int)
  {
    p.remainingTime > 0 && p.arrival <= clock
  }

  /** The length of one slice: the whole remaining time if it fits in the quantum. */
  function Slice(remaining: int, quantum: int): int
  {
    if remaining > quantum then quantum else remaining
  }

  /** Iteration i of the inner loop. */
  function Step(st: State, i: nat, quantum: int): (r: State)
    requires i < |st.procs|
    ensures |r.procs| == |st.procs|
  {
    var p := st.procs[i];
    if Runnable(p, st.clock) then
      var t := st.clock + Slice(p.remainingTime, quantum);
      var rem := p.remainingTime - Slice(p.remainingTime, quantum);
      if rem == 0 then
        var tat := t - p.arrival;
        State(st.procs[i := p.(remainingTime := rem, turnaroundTime := tat, waitingTime := tat - p.burst)],
              t, st.completed + 1)
      else
        State(st.procs[i := p.(remainingTime := rem)], t, st.completed)
    else
      st
  }

  /** Iterations i .. n - 1 of the inner loop. */
  function SweepFrom(st: State, i: nat, quantum: int): (r: State)
    requires i <= |st.procs|
    ensures |r.procs| == |st.procs|
    decreases |st.procs| - i
  {
    if i == |st.procs| then st else SweepFrom(Step(st, i, quantum), i + 1, quantum)
  }

  /** One pass of the inner loop over the whole table. */
  function Sweep(st: State, quantum: int): (r: State)
    ensures |r.procs| == |st.procs|
  {
    SweepFrom(st, 0, quantum)
  }

  predicate AnyRunnable(st: State)
  {
    exists k :: 0 <= k < |st.procs| && Runnable(st.procs[k], st.clock)
  }

  function Pos(x: int): nat
  {
    if x > 0 then x else 0
  }

  /** The work still owed: the sum of the positive remaining times. */
  function Pending(ps: seq<Process>): nat
  {
    if ps == [] then 0 else Pos(ps[0].remainingTime) + Pending(ps[1..])
  }

  /** The outer loop of RoundRobin, as written. It stops as `Stuck` where the C loop
      would run forever: with a quantum that is not positive no slice ever brings a
      remaining time to 0 (NoQuantumCompletesNothing), and a sweep with nothing
      runnable changes nothing (IdleSweepChangesNothing). */
  function Execute(st: State, quantum: int): Run
    decreases Pending(st.procs)
  {
    if st.completed >= |st.procs| then Finished(st)
    else if quantum <= 0 || !AnyRunnable(st) then Stuck(st)
    else
      SweepShrinksPending(st, quantum);
      Execute(Sweep(st, quantum), quantum)
  }

  /** The outcome of RoundRobin on a freshly loaded table. */
  function RoundRobinRun(ps: seq<Process>, quantum: int): Run
  {
    Execute(State(ps, 0, 0), quantum)
  }

  /** The inner for loop of RoundRobin: one sweep over the array, in place, returning the
      new `current_time` and `completed`. */
  method SweepInPlace(ps: array<Process>, quantum: int, time: int, done: int)
      returns (currentTime: int, completed: int)
    modifies ps
    ensures State(ps[..], currentTime, completed) == Sweep(State(old(ps[..]), time, done), quantum)
  {
    ghost var before := State(ps[..], time, done);
    currentTime, completed := time, done;
    for i := 0 to ps.Length
      invariant SweepFrom(State(ps[..], currentTime, completed), i, quantum) == Sweep(before, quantum)
    {
      ghost var here := State(ps[..], currentTime, completed);
      if ps[i].remainingTime > 0 && ps[i].arrival <= currentTime {
        var execTime := if ps[i].remainingTime > quantum then quantum else ps[i].remainingTime;
        currentTime := currentTime + execTime;
        ps[i] := ps[i].(remainingTime := ps[i].remainingTime - execTime);
        if ps[i].remainingTime == 0 {
          ps[i] := ps[i].(turnaroundTime := currentTime - ps[i].arrival);
          ps[i] := ps[i].(waitingTime := ps[i].turnaroundTime - ps[i].burst);
          completed := completed + 1;
        }
      }
      assert State(ps[..], currentTime, completed) == Step(here, i, quantum);
    }
  }

  /** RoundRobin over the whole array, updating it in place. Where the C function would
      never return, this method returns `RunsForever` and the table as it stood when
      the method saw that the loop could no longer end. */
  method RoundRobinSchedule(ps: array<Process>, quantum: int) returns (outcome: Termination)
    modifies ps
    ensures var r := RoundRobinRun(old(ps[..]), quantum);
      ps[..] == r.state.procs && (outcome == Terminates <==> r.Finished?)
  {
    var currentTime, completed := 0, 0;
    ghost var start := State(ps[..], 0, 0);
    while completed < ps.Length
      invariant Execute(State(ps[..], currentTime, completed), quantum) == Execute(start, quantum)
      decreases Pending(ps[..])
    {
      if quantum <= 0 || !(exists k :: 0 <= k < ps.Length && Runnable(ps[k], currentTime)) {
        return RunsForever;
      }
      ghost var before := State(ps[..], currentTime, completed);
      currentTime, completed := SweepInPlace(ps, quantum, currentTime, completed);
      SweepShrinksPending(before, quantum);
    }
    return Terminates;
  }

  // ---------------------------------------------------------------------------
  // Bookkeeping of the sums

  lemma {:induction false} PendingUpdate(ps: seq<Process>, i: nat, x: Process)
    requires i < |ps|
    ensures Pending(ps[i := x]) == Pending(ps) - Pos(ps[i].remainingTime) + Pos(x.remainingTime)
  {
    if i == 0 {
      assert ps[i := x][1..] == ps[1..];
    } else {
      assert ps[i := x][1..] == ps[1..][i - 1 := x];
      PendingUpdate(ps[1..], i - 1, x);
    }
  }

  /** A process counted by `completed`: it had work and its remaining time reached 0. */
  predicate Done(p: Process)
  {
    p.burst > 0 && p.remainingTime == 0
  }

  function CountDone(ps: seq<Process>): (r: nat)
    ensures r <= |ps|
  {
    if ps == [] then 0 else (if Done(ps[0]) then 1 else 0) + CountDone(ps[1..])
  }

  lemma {:induction false} CountDoneUpdate(ps: seq<Process>, i: nat, x: Process)
    requires i < |ps|
    ensures CountDone(ps[i := x]) == CountDone(ps) - (if Done(ps[i]) then 1 else 0) + (if Done(x) then 1 else 0)
  {
    if i == 0 {
      assert ps[i := x][1..] == ps[1..];
    } else {
      assert ps[i := x][1..] == ps[1..][i - 1 := x];
      CountDoneUpdate(ps[1..], i - 1, x);
    }
  }

  /** `completed` can reach n only when every process is done. */
  lemma {:induction false} CountDoneAll(ps: seq<Process>)
    requires CountDone(ps) >= |ps|
    ensures forall k :: 0 <= k < |ps| ==> Done(ps[k])
  {
    if ps != [] {
      CountDoneAll(ps[1..]);
      forall k | 0 <= k < |ps| ensures Done(ps[k]) {
        if k > 0 { assert ps[k] == ps[1..][k - 1]; }
      }
    }
  }

  lemma {:induction false} CountDoneNone(ps: seq<Process>)
    requires forall k :: 0 <= k < |ps| ==> !Done(ps[k])
    ensures CountDone(ps) == 0
  {
    if ps != [] {
      assert !Done(ps[0]);
      CountDoneNone(ps[1..]);
    }
  }

  lemma {:induction false} PendingZero(ps: seq<Process>)
    requires Pending(ps) == 0
    ensures forall k :: 0 <= k < |ps| ==> ps[k].remainingTime <= 0
  {
    if ps != [] {
      PendingZero(ps[1..]);
      forall k | 0 <= k < |ps| ensures ps[k].remainingTime <= 0 {
        if k > 0 { assert ps[k] == ps[1..][k - 1]; }
      }
    }
  }

  // ---------------------------------------------------------------------------
  // One step of the inner loop

  /** Iteration i touches only entry i and the two counters; the clock moves forward by
      exactly the work taken off the table, so clock + Pending never changes. */
  lemma StepFrame(st: State, i: nat, quantum: int)
    requires i < |st.procs|
    ensures var r := Step(st, i, quantum);
      && SameJobs(st.procs, r.procs)
      && r.procs[i].startTime == st.procs[i].startTime
      && (forall k :: 0 <= k < |st.procs| && k != i ==> r.procs[k] == st.procs[k])
      && r.clock + Pending(r.procs) == st.clock + Pending(st.procs)
  {
    var r := Step(st, i, quantum);
    PendingUpdate(st.procs, i, r.procs[i]);
  }

  /** With a positive quantum, a runnable process gets exactly min(remaining, quantum):
      its remaining time drops by the slice, never below 0, and the clock advances by the
      same amount. A process that is not runnable leaves the state alone. A slice that brings the remaining
      time to 0 completes the process at the new clock: its turnaround is that clock
      minus its arrival, its waiting time is the turnaround minus its burst, and the
      completed count goes up by one. Any other slice leaves the completed count and
      both recorded times as they were. */
  lemma StepRunsOneSlice(st: State, i: nat, quantum: int)
    requires i < |st.procs| && quantum > 0
    ensures var p, r := st.procs[i], Step(st, i, quantum);
      if Runnable(p, st.clock) then
        && var slice := p.remainingTime - r.procs[i].remainingTime;
        && 0 < slice <= quantum
        && (slice == quantum || slice == p.remainingTime)
        && r.clock == st.clock + slice
        && r.procs[i].remainingTime >= 0
        && (if r.procs[i].remainingTime == 0 then
              && r.procs[i].turnaroundTime == r.clock - p.arrival
              && r.procs[i].waitingTime == r.procs[i].turnaroundTime - p.burst
              && r.completed == st.completed + 1
            else
              && r.procs[i].turnaroundTime == p.turnaroundTime
              && r.procs[i].waitingTime == p.waitingTime
              && r.completed == st.completed)
      else r == st
  {
  }

  /** The invariant of one process in the middle of a run at the given clock. */
  predicate ProcessInv(p: Process, clock: int)
  {
    && (p.burst <= 0 ==> p.remainingTime == p.burst)
    && (p.burst > 0 ==> 0 <= p.remainingTime <= p.burst)
    && (p.remainingTime < p.burst ==> p.arrival + (p.burst - p.remainingTime) <= clock)
    && (Done(p) ==>
          && p.waitingTime == p.turnaroundTime - p.burst
          && p.burst <= p.turnaroundTime
          && p.arrival + p.turnaroundTime <= clock)
  }

  /** The invariant of the outer loop: every process is consistent with the clock and
      `completed` counts exactly the processes whose remaining time has reached 0. */
  predicate Inv(st: State)
  {
    && (forall k :: 0 <= k < |st.procs| ==> ProcessInv(st.procs[k], st.clock))
    && st.completed == CountDone(st.procs)
  }

  lemma InvInitially(ps: seq<Process>)
    requires Loaded(ps)
    ensures Inv(State(ps, 0, 0))
  {
    CountDoneNone(ps);
  }

  lemma InvLaterClock(st: State, t: int)
    requires Inv(st) && st.clock <= t
    ensures Inv(st.(clock := t))
  {
  }

  lemma StepKeepsInv(st: State, i: nat, quantum: int)
    requires i < |st.procs| && quantum > 0 && Inv(st)
    ensures var r := Step(st, i, quantum); Inv(r) && r.clock >= st.clock
  {
    var r := Step(st, i, quantum);
    StepFrame(st, i, quantum);
    CountDoneUpdate(st.procs, i, r.procs[i]);
    forall k | 0 <= k < |r.procs| ensures ProcessInv(r.procs[k], r.clock) {
      if k != i {
        assert ProcessInv(st.procs[k], st.clock);
      }
    }
  }

  // ---------------------------------------------------------------------------
  // One sweep

  lemma {:induction false} SweepFromFrame(st: State, i: nat, quantum: int)
    requires i <= |st.procs|
    ensures var r := SweepFrom(st, i, quantum);
      && SameJobs(st.procs, r.procs)
      && (forall k :: 0 <= k < |st.procs| ==> r.procs[k].startTime == st.procs[k].startTime)
      && (forall k :: 0 <= k < i ==> r.procs[k] == st.procs[k])
      && r.clock + Pending(r.procs) == st.clock + Pending(st.procs)
    decreases |st.procs| - i
  {
    if i < |st.procs| {
      StepFrame(st, i, quantum);
      SweepFromFrame(Step(st, i, quantum), i + 1, quantum);
    }
  }

  lemma {:induction false} SweepFromKeepsInv(st: State, i: nat, quantum: int)
    requires i <= |st.procs| && quantum > 0 && Inv(st)
    ensures var r := SweepFrom(st, i, quantum); Inv(r) && r.clock >= st.clock
    decreases |st.procs| - i
  {
    if i < |st.procs| {
      StepKeepsInv(st, i, quantum);
      SweepFromKeepsInv(Step(st, i, quantum), i + 1, quantum);
    }
  }

  lemma {:induction false} SweepFromClockGrows(st: State, i: nat, quantum: int)
    requires i <= |st.procs| && quantum > 0
    ensures SweepFrom(st, i, quantum).clock >= st.clock
    decreases |st.procs| - i
  {
    if i < |st.procs| {
      SweepFromClockGrows(Step(st, i, quantum), i + 1, quantum);
    }
  }

  /** Within a sweep from index i, process k >= i is handled once, at iteration k: it loses
      between 0 and `quantum`, and exactly one slice if it was runnable when the sweep
      reached i. Entries before i are not touched. */
  lemma {:induction false} SweepFromSlices(st: State, i: nat, quantum: int, k: nat)
    requires i <= |st.procs| && k < |st.procs| && quantum > 0
    requires st.procs[k].remainingTime >= 0
    ensures var p, r := st.procs[k], SweepFrom(st, i, quantum);
      && (k < i ==> r.procs[k] == p)
      && (k >= i ==> 0 <= p.remainingTime - r.procs[k].remainingTime <= quantum)
      && (k >= i && Runnable(p, st.clock) ==>
            p.remainingTime - r.procs[k].remainingTime == Slice(p.remainingTime, quantum))
    decreases |st.procs| - i
  {
    if i < |st.procs| {
      var s := Step(st, i, quantum);
      StepFrame(st, i, quantum);
      StepRunsOneSlice(st, i, quantum);
      SweepFromSlices(s, i + 1, quantum, k);
    } else {
      SweepFromFrame(st, i, quantum);
    }
  }

  /** With a positive quantum, over one sweep every process whose remaining time is not
      negative gets at most one slice, and exactly one if it was runnable when the sweep
      began. */
  lemma SweepGivesAtMostOneSlice(st: State, quantum: int, k: nat)
    requires k < |st.procs| && quantum > 0 && st.procs[k].remainingTime >= 0
    ensures var p, r := st.procs[k], Sweep(st, quantum);
      && 0 <= p.remainingTime - r.procs[k].remainingTime <= quantum
      && (Runnable(p, st.clock) ==> p.remainingTime - r.procs[k].remainingTime == Slice(p.remainingTime, quantum))
  {
    SweepFromSlices(st, 0, quantum, k);
  }

  lemma {:induction false} SweepFromShrinks(st: State, i: nat, quantum: int, j: nat)
    requires i <= j < |st.procs| && quantum > 0 && Runnable(st.procs[j], st.clock)
    ensures Pending(SweepFrom(st, i, quantum).procs) < Pending(st.procs)
    decreases |st.procs| - i
  {
    var s := Step(st, i, quantum);
    StepFrame(st, i, quantum);
    StepRunsOneSlice(st, i, quantum);
    SweepFromFrame(s, i + 1, quantum);
    SweepFromClockGrows(s, i + 1, quantum);
    if i < j {
      SweepFromShrinks(s, i + 1, quantum, j);
    }
  }

  /** With a positive quantum, a sweep that finds a runnable process takes work off the
      table. */
  lemma SweepShrinksPending(st: State, quantum: int)
    requires quantum > 0 && AnyRunnable(st)
    ensures Pending(Sweep(st, quantum).procs) < Pending(st.procs)
  {
    var j :| 0 <= j < |st.procs| && Runnable(st.procs[j], st.clock);
    SweepFromShrinks(st, 0, quantum, j);
  }

  lemma {:induction false} IdleSweepFrom(st: State, i: nat, quantum: int)
    requires i <= |st.procs| && !AnyRunnable(st)
    ensures SweepFrom(st, i, quantum) == st
    decreases |st.procs| - i
  {
    if i < |st.procs| {
      assert !Runnable(st.procs[i], st.clock);
      IdleSweepFrom(st, i + 1, quantum);
    }
  }

  /** A sweep that finds no arrived, unfinished process changes nothing, so the C loop
      would repeat it forever. */
  lemma IdleSweepChangesNothing(st: State, quantum: int)
    requires !AnyRunnable(st)
    ensures Sweep(st, quantum) == st
  {
    IdleSweepFrom(st, 0, quantum);
  }

  lemma {:induction false} NoQuantumSweepFrom(st: State, i: nat, quantum: int)
    requires i <= |st.procs| && quantum <= 0
    ensures var r := SweepFrom(st, i, quantum);
      && r.completed == st.completed
      && forall k :: 0 <= k < |st.procs| && st.procs[k].remainingTime > 0 ==> r.procs[k].remainingTime > 0
    decreases |st.procs| - i
  {
    if i < |st.procs| {
      var s := Step(st, i, quantum);
      NoQuantumSweepFrom(s, i + 1, quantum);
    }
  }

  /** With a quantum that is not positive, a slice never brings a remaining time to 0, so
      no sweep ever increases `completed`: the C loop can then never end once n > 0. */
  lemma NoQuantumCompletesNothing(st: State, quantum: int)
    requires quantum <= 0
    ensures Sweep(st, quantum).completed == st.completed
  {
    NoQuantumSweepFrom(st, 0, quantum);
  }

  // ---------------------------------------------------------------------------
  // The whole run, as written

  lemma {:induction false} ExecuteKeepsInv(st: State, quantum: int)
    requires Inv(st)
    ensures var r := Execute(st, quantum);
      && Inv(r.state)
      && SameJobs(st.procs, r.state.procs)
      && (forall k :: 0 <= k < |st.procs| ==> r.state.procs[k].startTime == st.procs[k].startTime)
      && r.state.clock + Pending(r.state.procs) == st.clock + Pending(st.procs)
      && (r.Finished? ==> forall k :: 0 <= k < |st.procs| ==> Done(r.state.procs[k]))
    decreases Pending(st.procs)
  {
    if st.completed >= |st.procs| {
      CountDoneAll(st.procs);
    } else if quantum > 0 && AnyRunnable(st) {
      SweepShrinksPending(st, quantum);
      SweepFromKeepsInv(st, 0, quantum);
      SweepFromFrame(st, 0, quantum);
      ExecuteKeepsInv(Sweep(st, quantum), quantum);
    }
  }

  /** When RoundRobin returns, every process is finished and its times are recorded:
      the job is unchanged and still in its row, the remaining time is 0, the waiting
      time is the turnaround time less the burst and is never negative, and each process
      completed by the final clock. The final clock is the total burst of the table:
      a run that ends never left the CPU idle. A run that ends also had a positive
      quantum (for a non-empty table) and only positive bursts. */
  lemma FinishedRunServesEveryProcess(ps: seq<Process>, quantum: int)
    requires Loaded(ps)
    ensures var r := RoundRobinRun(ps, quantum);
      r.Finished? ==>
        && (|ps| > 0 ==> quantum > 0)
        && r.state.clock == Pending(ps)
        && SameJobs(ps, r.state.procs)
        && forall k :: 0 <= k < |ps| ==>
             var p := r.state.procs[k];
             && ps[k].burst > 0
             && p.startTime == ps[k].startTime
             && p.remainingTime == 0
             && p.waitingTime == p.turnaroundTime - p.burst
             && p.waitingTime >= 0
             && p.arrival + p.turnaroundTime <= r.state.clock
  {
    var r := RoundRobinRun(ps, quantum);
    InvInitially(ps);
    ExecuteKeepsInv(State(ps, 0, 0), quantum);
    if r.Finished? {
      assert forall k :: 0 <= k < |ps| ==> Done(r.state.procs[k]);
      assert forall k :: 0 <= k < |ps| ==> ProcessInv(r.state.procs[k], r.state.clock);
      PendingAllZero(r.state.procs);
    }
  }

  lemma {:induction false} PendingAllZero(ps: seq<Process>)
    requires forall k :: 0 <= k < |ps| ==> ps[k].remainingTime == 0
    ensures Pending(ps) == 0
  {
    if ps != [] {
      assert ps[0].remainingTime == 0;
      PendingAllZero(ps[1..]);
    }
  }

  /** Every unfinished run ends `Stuck` when some process has a burst that is not
      positive: such a process is never runnable, so `completed` never reaches n. */
  lemma NonPositiveBurstNeverFinishes(ps: seq<Process>, quantum: int, k: nat)
    requires Loaded(ps) && k < |ps| && ps[k].burst <= 0
    ensures RoundRobinRun(ps, quantum).Stuck?
  {
    FinishedRunServesEveryProcess(ps, quantum);
  }

  lemma {:induction false} PresentAtStartExecute(st: State, quantum: int)
    requires Inv(st) && quantum > 0 && st.clock >= 0
    requires forall k :: 0 <= k < |st.procs| ==> st.procs[k].burst > 0 && st.procs[k].arrival <= 0
    ensures Execute(st, quantum).Finished?
    decreases Pending(st.procs)
  {
    if st.completed < |st.procs| {
      if forall k :: 0 <= k < |st.procs| ==> Done(st.procs[k]) {
        CountDoneAllDone(st.procs);
        assert false;
      }
      var k :| 0 <= k < |st.procs| && !Done(st.procs[k]);
      assert ProcessInv(st.procs[k], st.clock);
      assert Runnable(st.procs[k], st.clock);
      SweepShrinksPending(st, quantum);
      SweepFromKeepsInv(st, 0, quantum);
      SweepFromFrame(st, 0, quantum);
      PresentAtStartExecute(Sweep(st, quantum), quantum);
    }
  }

  lemma {:induction false} CountDoneAllDone(ps: seq<Process>)
    requires forall k :: 0 <= k < |ps| ==> Done(ps[k])
    ensures CountDone(ps) == |ps|
  {
    if ps != [] {
      assert Done(ps[0]);
      CountDoneAllDone(ps[1..]);
    }
  }

  /** When every process has arrived by time 0, a positive quantum and positive bursts
      are enough for RoundRobin to return. */
  lemma AllPresentAtStartFinishes(ps: seq<Process>, quantum: int)
    requires Loaded(ps) && quantum > 0
    requires forall k :: 0 <= k < |ps| ==> ps[k].burst > 0 && ps[k].arrival <= 0
    ensures RoundRobinRun(ps, quantum).Finished?
  {
    InvInitially(ps);
    PresentAtStartExecute(State(ps, 0, 0), quantum);
  }

  // ---------------------------------------------------------------------------
  // The idle-aware variant: when a sweep would find nothing runnable, the clock first
  // moves forward to the earliest arrival among the processes that still have work.

  predicate AnyPending(st: State)
  {
    exists k :: 0 <= k < |st.procs| && st.procs[k].remainingTime > 0
  }

  /** The earliest arrival among the entries i .. n - 1 that still have work. */
  function EarliestPendingArrival(ps: seq<Process>, i: nat): (t: int)
    requires i < |ps| && exists k :: i <= k < |ps| && ps[k].remainingTime > 0
    ensures exists k :: i <= k < |ps| && ps[k].remainingTime > 0 && ps[k].arrival == t
    ensures forall k :: i <= k < |ps| && ps[k].remainingTime > 0 ==> t <= ps[k].arrival
    decreases |ps| - i
  {
    if !(exists k :: i + 1 <= k < |ps| && ps[k].remainingTime > 0) then ps[i].arrival
    else if ps[i].remainingTime > 0 && ps[i].arrival <= EarliestPendingArrival(ps, i + 1) then ps[i].arrival
    else EarliestPendingArrival(ps, i + 1)
  }

  /** The state a sweep of the idle-aware loop starts from. */
  function Ready(st: State): (r: State)
    requires AnyPending(st)
    ensures r.procs == st.procs && r.completed == st.completed && AnyRunnable(r)
  {
    if AnyRunnable(st) then st
    else
      var t := EarliestPendingArrival(st.procs, 0);
      assert AnyRunnable(st.(clock := t)) by {
        var k :| 0 <= k < |st.procs| && st.procs[k].remainingTime > 0 && st.procs[k].arrival == t;
        assert Runnable(st.procs[k], t);
      }
      st.(clock := t)
  }

  /** The outer loop with the idle gap closed. It is `Stuck` only where no process
      has work left but `completed` is still below n, or the quantum is not positive. */
  function ExecuteIdleAware(st: State, quantum: int): Run
    decreases Pending(st.procs)
  {
    if st.completed >= |st.procs| then Finished(st)
    else if quantum <= 0 || !AnyPending(st) then Stuck(st)
    else
      SweepShrinksPending(Ready(st), quantum);
      ExecuteIdleAware(Sweep(Ready(st), quantum), quantum)
  }

  function RoundRobinIdleAwareRun(ps: seq<Process>, quantum: int): Run
  {
    ExecuteIdleAware(State(ps, 0, 0), quantum)
  }

  /** RoundRobin with the idle gap closed, updating the array in place. */
  method RoundRobinIdleAware(ps: array<Process>, quantum: int) returns (outcome: Termination)
    modifies ps
    ensures var r := RoundRobinIdleAwareRun(old(ps[..]), quantum);
      ps[..] == r.state.procs && (outcome == Terminates <==> r.Finished?)
  {
    var currentTime, completed := 0, 0;
    ghost var start := State(ps[..], 0, 0);
    while completed < ps.Length
      invariant ExecuteIdleAware(State(ps[..], currentTime, completed), quantum) == ExecuteIdleAware(start, quantum)
      decreases Pending(ps[..])
    {
      if quantum <= 0 || !(exists k :: 0 <= k < ps.Length && ps[k].remainingTime > 0) {
        return RunsForever;
      }
      ghost var entry := State(ps[..], currentTime, completed);
      if !(exists k :: 0 <= k < ps.Length && Runnable(ps[k], currentTime)) {
        // the CPU is idle: move the clock to the next arrival
        currentTime := EarliestPendingArrival(ps[..], 0);
      }
      ghost var before := State(ps[..], currentTime, completed);
      assert before == Ready(entry);
      currentTime, completed := SweepInPlace(ps, quantum, currentTime, completed);
      SweepShrinksPending(before, quantum);
    }
    return Terminates;
  }

  /** While some process is unfinished and every burst is positive, some process still
      has work, and moving the clock to the earliest arrival only moves it forward. */
  lemma ReadyKeepsInv(st: State)
    requires Inv(st) && st.completed < |st.procs|
    requires forall k :: 0 <= k < |st.procs| ==> st.procs[k].burst > 0
    ensures AnyPending(st) && Inv(Ready(st)) && Ready(st).clock >= st.clock
  {
    if forall k :: 0 <= k < |st.procs| ==> Done(st.procs[k]) {
      CountDoneAllDone(st.procs);
      assert false;
    }
    var k :| 0 <= k < |st.procs| && !Done(st.procs[k]);
    assert ProcessInv(st.procs[k], st.clock);
    assert st.procs[k].remainingTime > 0;
    var ready := Ready(st);
    if !AnyRunnable(st) {
      var j :| 0 <= j < |st.procs| && st.procs[j].remainingTime > 0 && st.procs[j].arrival == ready.clock;
      assert !Runnable(st.procs[j], st.clock);
    }
    InvLaterClock(st, ready.clock);
  }

  lemma {:induction false} IdleAwareExecute(st: State, quantum: int)
    requires Inv(st) && quantum > 0
    requires forall k :: 0 <= k < |st.procs| ==> st.procs[k].burst > 0
    ensures var r := ExecuteIdleAware(st, quantum);
      && r.Finished?
      && Inv(r.state)
      && SameJobs(st.procs, r.state.procs)
      && (forall k :: 0 <= k < |st.procs| ==> r.state.procs[k].startTime == st.procs[k].startTime)
      && r.state.clock >= st.clock + Pending(st.procs)
      && (forall k :: 0 <= k < |st.procs| ==> Done(r.state.procs[k]))
    decreases Pending(st.procs)
  {
    if st.completed >= |st.procs| {
      CountDoneAll(st.procs);
      assert forall k :: 0 <= k < |st.procs| ==> st.procs[k].remainingTime == 0;
      PendingAllZero(st.procs);
    } else {
      ReadyKeepsInv(st);
      var ready := Ready(st);
      SweepShrinksPending(ready, quantum);
      SweepFromKeepsInv(ready, 0, quantum);
      SweepFromFrame(ready, 0, quantum);
      IdleAwareExecute(Sweep(ready, quantum), quantum);
    }
  }

  /** With a positive quantum and positive bursts, the idle-aware loop always returns,
      whatever the arrival times. Every process is left finished with its job and start
      time unchanged, a waiting time of turnaround minus burst that is not negative, and
      arrival + turnaround no later than the final clock; the exact turnaround is stated
      for the completing slice by StepRunsOneSlice. The final clock is at least the total
      burst; it exceeds it by the time spent idle. */
  lemma IdleAwareServesEveryProcess(ps: seq<Process>, quantum: int)
    requires Loaded(ps) && quantum > 0
    requires forall k :: 0 <= k < |ps| ==> ps[k].burst > 0
    ensures var r := RoundRobinIdleAwareRun(ps, quantum);
      && r.Finished?
      && r.state.clock >= Pending(ps)
      && SameJobs(ps, r.state.procs)
      && forall k :: 0 <= k < |ps| ==>
           var p := r.state.procs[k];
           && p.startTime == ps[k].startTime
           && p.remainingTime == 0
           && p.waitingTime == p.turnaroundTime - p.burst
           && p.waitingTime >= 0
           && p.arrival + p.turnaroundTime <= r.state.clock
  {
    var r := RoundRobinIdleAwareRun(ps, quantum);
    InvInitially(ps);
    IdleAwareExecute(State(ps, 0, 0), quantum);
    assert forall k :: 0 <= k < |ps| ==> ProcessInv(r.state.procs[k], r.state.clock);
  }

  /** Wherever the as-written loop returns, the idle-aware loop returns the same state:
      the two differ only on the runs that RoundRobin never finishes. */
  lemma {:induction false} IdleAwareAgreesWhenFinished(st: State, quantum: int)
    requires Execute(st, quantum).Finished?
    ensures ExecuteIdleAware(st, quantum) == Execute(st, quantum)
    decreases Pending(st.procs)
  {
    if st.completed < |st.procs| {
      var j :| 0 <= j < |st.procs| && Runnable(st.procs[j], st.clock);
      assert AnyPending(st);
      assert Ready(st) == st;
      SweepShrinksPending(st, quantum);
      IdleAwareAgreesWhenFinished(Sweep(st, quantum), quantum);
    }
  }

  /** A table whose only process arrives at time 1: RoundRobin never runs it and never
      returns, while the idle-aware loop finishes it. */
  lemma LateFirstArrivalHangs()
    ensures var ps := [Process(1, 1, 2, 0, 0, 0, 2, 0)];
      && RoundRobinRun(ps, 4) == Stuck(State(ps, 0, 0))
      && RoundRobinIdleAwareRun(ps, 4).Finished?
  {
    var ps := [Process(1, 1, 2, 0, 0, 0, 2, 0)];
    assert !Runnable(ps[0], 0);
    assert !AnyRunnable(State(ps, 0, 0));
    IdleAwareServesEveryProcess(ps, 4);
  }

  /** Process 1 finishes at time 1, before process 2 arrives at time 5: RoundRobin
      stops making progress with one process done and never returns. */
  lemma IdleGapHangs()
    ensures var ps := [Process(1, 0, 1, 0, 0, 0, 1, 0), Process(2, 5, 1, 0, 0, 0, 1, 0)];
      && RoundRobinRun(ps, 2) == Stuck(State([Process(1, 0, 1, 0, 0, 1, 0, 0), ps[1]], 1, 1))
      && RoundRobinIdleAwareRun(ps, 2).Finished?
  {
    var ps := [Process(1, 0, 1, 0, 0, 0, 1, 0), Process(2, 5, 1, 0, 0, 0, 1, 0)];
    var st0 := State(ps, 0, 0);
    var st1 := State([Process(1, 0, 1, 0, 0, 1, 0, 0), ps[1]], 1, 1);
    assert Runnable(ps[0], 0);
    assert Step(st0, 0, 2) == st1;
    assert !Runnable(st1.procs[1], 1);
    assert Step(st1, 1, 2) == st1;
    assert SweepFrom(st1, 2, 2) == st1;
    assert Sweep(st0, 2) == st1;
    assert !Runnable(st1.procs[0], 1);
    assert !AnyRunnable(st1);
    IdleAwareServesEveryProcess(ps, 2);
  }
}
