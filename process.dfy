/** The process table shared by the two CPU schedulers of scheduling_simulator.c. */
module Processes {

  /** One entry of the process table. The first four fields come from a row of the
      input file; the schedulers fill in the other four. */
  datatype Process = Process(
    pid: int,
    arrival: int,
    burst: int,
    priority: int,
    waitingTime: int,
    turnaroundTime: int,
    remainingTime: int,
    startTime: int)

  /** A table as the file reader leaves it: every remaining time equals its burst. */
  predicate Loaded(ps: seq<Process>)
  {
    forall k :: 0 <= k < |ps| ==> ps[k].remainingTime == ps[k].burst
  }

  /** p and q describe the same job: the fields read from the input file agree. */
  predicate SameJob(p: Process, q: Process)
  {
    p.pid == q.pid && p.arrival == q.arrival && p.burst == q.burst && p.priority == q.priority
  }

  /** Two tables hold the same jobs, row for row. */
  predicate SameJobs(ps: seq<Process>, qs: seq<Process>)
  {
    |ps| == |qs| && forall k :: 0 <= k < |ps| ==> SameJob(ps[k], qs[k])
  }
}
