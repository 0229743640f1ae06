/** First-Come, First-Served scheduling (function FCFS of scheduling_simulator.c).
    The table is served in array order, never sorted: each process starts when the
    previous one has finished, or at its own arrival if the CPU is idle until then. */
module FirstComeFirstServed {
  import opened Processes

  function Max(a: int, b: int): int
  {
    if a < b then b else a
  }

  /** The clock after the first k processes of the table have been served: each one
      starts at the clock left by its predecessors, or at its arrival if that is later,
      and runs for its burst. */
  function ClockAfter(ps: seq<Process>, k: nat): int
    requires k <= |ps|
  {
    if k == 0 then 0 else Max(ClockAfter(ps, k - 1), ps[k - 1].arrival) + ps[k - 1].burst
  }

  /** The start time of process k. */
  function StartOf(ps: seq<Process>, k: nat): int
    requires k < |ps|
  {
    Max(ClockAfter(ps, k), ps[k].arrival)
  }

  /** Process p with the three fields FCFS fills in, given its start time. */
  function Served(p: Process, start: int): Process
  {
    var waiting := start - p.arrival;
    p.(startTime := start, waitingTime := waiting, turnaroundTime := waiting + p.burst)
  }

  /** The table FCFS leaves behind. */
  function Schedule(ps: seq<Process>): (r: seq<Process>)
    ensures |r| == |ps|
  {
    seq(|ps|, k requires 0 <= k < |ps| => Served(ps[k], StartOf(ps, k)))
  }

  /** The total burst of the first k processes. */
  function BurstSum(ps: seq<Process>, k: nat): int
    requires k <= |ps|
  {
    if k == 0 then 0 else BurstSum(ps, k - 1) + ps[k - 1].burst
  }

  /** FCFS over the whole array, updating each entry in place. */
  method Fcfs(ps: array<Process>)
    modifies ps
    ensures ps[..] == Schedule(old(ps[..]))
  {
    ghost var input := ps[..];
    var currentTime := 0;
    for i := 0 to ps.Length
      invariant currentTime == ClockAfter(input, i)
      invariant forall k :: 0 <= k < i ==> ps[k] == Served(input[k], StartOf(input, k))
      invariant forall k :: i <= k < ps.Length ==> ps[k] == input[k]
    {
      var p := ps[i];
      if currentTime < p.arrival {
        currentTime := p.arrival;
      }
      p := p.(startTime := currentTime);
      p := p.(waitingTime := p.startTime - p.arrival);
      p := p.(turnaroundTime := p.waitingTime + p.burst);
      ps[i] := p;
      currentTime := currentTime + p.burst;
    }
    ServedTable(input, ps[..]);
  }

  lemma ServedTable(input: seq<Process>, out: seq<Process>)
    requires |out| == |input|
    requires forall k :: 0 <= k < |input| ==> out[k] == Served(input[k], StartOf(input, k))
    ensures out == Schedule(input)
  {
  }

  /** Every row keeps its job, in the same place: FCFS never reorders the table. Process
      k starts at the end of process k - 1 (at 0 for the first), or at its own arrival
      if that is later. */
  lemma ServedInArrayOrder(ps: seq<Process>, k: nat)
    requires k < |ps|
    ensures var r := Schedule(ps);
      && SameJob(r[k], ps[k])
      && r[k].remainingTime == ps[k].remainingTime
      && var free := if k == 0 then 0 else r[k - 1].startTime + r[k - 1].burst;
         r[k].startTime == (if free < ps[k].arrival then ps[k].arrival else free)
  {
    if k > 0 {
      assert ClockAfter(ps, k) == StartOf(ps, k - 1) + ps[k - 1].burst;
    }
  }

  /** The waiting time is the delay between arrival and start, and it is never negative. */
  lemma WaitingIsDelaySinceArrival(ps: seq<Process>, k: nat)
    requires k < |ps|
    ensures var r := Schedule(ps);
      r[k].waitingTime == r[k].startTime - ps[k].arrival && r[k].waitingTime >= 0
  {
  }

  /** The turnaround time is the waiting time plus the burst, which is the time from
      arrival to completion. */
  lemma TurnaroundIsWaitPlusBurst(ps: seq<Process>, k: nat)
    requires k < |ps|
    ensures var r := Schedule(ps);
      && r[k].turnaroundTime == r[k].waitingTime + ps[k].burst
      && ps[k].arrival + r[k].turnaroundTime == r[k].startTime + ps[k].burst
  {
  }

  /** Consecutive executions do not overlap: the clock after process k is its start
      plus its burst, and process k + 1 starts no earlier. */
  lemma ConsecutiveRunsDoNotOverlap(ps: seq<Process>, k: nat)
    requires k + 1 < |ps|
    ensures var r := Schedule(ps);
      ClockAfter(ps, k + 1) == r[k].startTime + ps[k].burst <= r[k + 1].startTime
  {
  }

  /** With no negative bursts, no two executions overlap at all: every later process
      starts after process j has finished. */
  lemma {:induction false} RunsDoNotOverlap(ps: seq<Process>, j: nat, k: nat)
    requires j < k < |ps|
    requires forall m :: 0 <= m < |ps| ==> ps[m].burst >= 0
    ensures var r := Schedule(ps); r[j].startTime + ps[j].burst <= r[k].startTime
    decreases k - j
  {
    if j + 1 < k {
      RunsDoNotOverlap(ps, j + 1, k);
      var r := Schedule(ps);
      assert r[j].startTime + ps[j].burst == ClockAfter(ps, j + 1) <= StartOf(ps, j + 1) == r[j + 1].startTime;
      assert ps[j + 1].burst >= 0;
    }
  }

  /** The CPU is never busier than the work it was given: the clock after k processes
      is at least their total burst. */
  lemma {:induction false} ClockCoversBursts(ps: seq<Process>, k: nat)
    requires k <= |ps|
    ensures ClockAfter(ps, k) >= BurstSum(ps, k)
  {
    if k > 0 {
      ClockCoversBursts(ps, k - 1);
    }
  }

  /** When every process is present at time 0 and no burst is negative, the CPU is
      never idle: process k waits exactly for the bursts of the processes before it. */
  lemma {:induction false} AllPresentWaitForPredecessors(ps: seq<Process>, k: nat)
    requires k < |ps|
    requires forall m :: 0 <= m < |ps| ==> ps[m].arrival == 0 && ps[m].burst >= 0
    ensures Schedule(ps)[k].waitingTime == BurstSum(ps, k)
  {
    ClockIsBurstSum(ps, k);
  }

  lemma {:induction false} ClockIsBurstSum(ps: seq<Process>, k: nat)
    requires k <= |ps|
    requires forall m :: 0 <= m < |ps| ==> ps[m].arrival == 0 && ps[m].burst >= 0
    ensures ClockAfter(ps, k) == BurstSum(ps, k) >= 0
  {
    if k > 0 {
      ClockIsBurstSum(ps, k - 1);
    }
  }
}
