/** The bounded buffer of ProducerConsumer.java and the threads that share it, run
    sequentially. A semaphore is modelled by its number of free permits: `acquire` is a
    step that is enabled only while a permit is free (a call that would block is not
    taken), and `release` adds a permit. */
module ProducerConsumer {

  /** The fixed number of slots of the buffer. */
  const Capacity := 5

  /** Class Buffer: a linked list of items, its capacity, and the semaphores `mutex`,
      `empty` (free slots) and `full` (filled slots). */
  class Buffer {
    var buffer: seq<int>
    var capacity: int
    var mutex: int
    var empty: int
    var full: int

    /** Between two operations: the lock is free, `full` counts the items, `empty` the
        free slots, and together they make up the capacity of 5. */
    ghost predicate Valid()
      reads this
    {
      && capacity == Capacity
      && mutex == 1
      && 0 <= empty
      && 0 <= full
      && full == |buffer|
      && empty + full == capacity
    }

    constructor ()
      ensures Valid() && buffer == [] && empty == Capacity && full == 0
    {
      buffer := [];
      capacity := Capacity;
      mutex := 1;
      empty := Capacity;
      full := 0;
    }

    /** produce(item): enabled only while a slot is free. Appends the item at the tail,
        takes one permit from `empty` and gives one to `full`. */
    method Produce(item: int)
      requires Valid() && empty > 0
      modifies this
      ensures Valid()
      ensures buffer == old(buffer) + [item]
      ensures empty == old(empty) - 1 && full == old(full) + 1
    {
      empty := empty - 1;   // empty.acquire()
      mutex := mutex - 1;   // mutex.acquire(), enabled since mutex == 1
      assert mutex == 0;    // the list changes only under the lock
      buffer := buffer + [item];
      mutex := mutex + 1;   // mutex.release()
      full := full + 1;     // full.release()
    }

    /** consume(pid): enabled only while an item is queued. Removes and returns the
        oldest item, leaving the others in order; takes one permit from `full` and gives
        one to `empty`. */
    method Consume() returns (item: int)
      requires Valid() && full > 0
      modifies this
      ensures Valid()
      ensures item == old(buffer)[0] && buffer == old(buffer)[1..]
      ensures full == old(full) - 1 && empty == old(empty) + 1
    {
      full := full - 1;     // full.acquire()
      mutex := mutex - 1;   // mutex.acquire(), enabled since mutex == 1
      assert mutex == 0;    // the list changes only under the lock
      item := buffer[0];
      buffer := buffer[1..];
      mutex := mutex + 1;   // mutex.release()
      empty := empty + 1;   // empty.release()
    }
  }

  /** The items producer `pid` puts into the buffer in its first k iterations: iteration
      i produces pid * 10 + i. */
  function ProducerItems(pid: int, k: int): (items: seq<int>)
    ensures |items| == if k > 0 then k else 0
    ensures forall i :: 0 <= i < |items| ==> items[i] == pid * 10 + i
  {
    if k <= 0 then [] else ProducerItems(pid, k - 1) + [pid * 10 + (k - 1)]
  }

  /** A producer's items are strictly increasing, hence pairwise distinct. */
  lemma ProducerItemsIncrease(pid: int, k: int, i: nat, j: nat)
    requires i < j < |ProducerItems(pid, k)|
    ensures ProducerItems(pid, k)[i] < ProducerItems(pid, k)[j]
  {
  }

  /** The numbering keeps two producers' items apart as long as neither runs more than ten
      iterations. */
  lemma ProducerItemsDisjoint(p: int, q: int, kp: int, kq: int, i: nat, j: nat)
    requires p != q && kp <= 10 && kq <= 10
    requires i < |ProducerItems(p, kp)| && j < |ProducerItems(q, kq)|
    ensures ProducerItems(p, kp)[i] != ProducerItems(q, kq)[j]
  {
    if p < q {
      assert (q - p) * 10 >= 10;
    } else {
      assert (p - q) * 10 >= 10;
    }
  }

  /** From the eleventh iteration on, the numbering repeats another producer's items:
      producer 1's item 20 is also producer 2's first item. */
  lemma ProducerItemsCollideAfterTen()
    ensures ProducerItems(1, 11)[10] == ProducerItems(2, 1)[0] == 20
  {
  }

  datatype Role = Producer | Consumer

  /** A thread of the simulation: its role, its pid, and the number of iterations of its
      run loop. */
  datatype Worker = Worker(role: Role, pid: int, burstTime: int)

  /** The outcome of reading the data rows: the threads to start, or the index of the
      first row that has no burst-time column (main then throws before starting any
      thread). */
  datatype Setup = Workers(workers: seq<Worker>) | MalformedRow(row: nat)

  /** The reading loop of main over the data rows (the header line already skipped), each
      row given as its whitespace-separated columns. Column 0 is the pid and column 2 the
      burst time; the first row becomes the producer and every later row a consumer. */
  method AssignRoles(rows: seq<seq<int>>) returns (r: Setup)
    ensures r.MalformedRow? <==> exists k :: 0 <= k < |rows| && |rows[k]| < 3
    ensures r.MalformedRow? ==>
      r.row < |rows| && |rows[r.row]| < 3 && forall k :: 0 <= k < r.row ==> |rows[k]| >= 3
    ensures r.Workers? ==>
      && |r.workers| == |rows|
      && forall k :: 0 <= k < |rows| ==>
           r.workers[k] == Worker(if k == 0 then Producer else Consumer, rows[k][0], rows[k][2])
  {
    var threads: seq<Worker> := [];
    var firstProcess := true;
    var k := 0;
    while k < |rows|
      invariant 0 <= k <= |rows|
      invariant firstProcess <==> k == 0
      invariant |threads| == k
      invariant forall j :: 0 <= j < k ==> |rows[j]| >= 3
      invariant forall j :: 0 <= j < k ==>
        threads[j] == Worker(if j == 0 then Producer else Consumer, rows[j][0], rows[j][2])
    {
      var parts := rows[k];
      if |parts| < 3 {
        return MalformedRow(k);
      }
      var pid := parts[0];
      var burstTime := parts[2];
      if firstProcess {
        threads := threads + [Worker(Producer, pid, burstTime)];
        firstProcess := false;
      } else {
        threads := threads + [Worker(Consumer, pid, burstTime)];
      }
      k := k + 1;
    }
    return Workers(threads);
  }

  /** The thread list main builds: one producer first, consumers after it. */
  predicate SingleProducer(workers: seq<Worker>)
  {
    && |workers| > 0
    && workers[0].role == Producer
    && forall k :: 0 < k < |workers| ==> workers[k].role == Consumer
  }

  /** The total loop count of the threads with the given role. */
  function Iterations(workers: seq<Worker>, iterations: seq<int>, role: Role): int
    requires |iterations| == |workers|
  {
    if workers == [] then 0
    else (if workers[0].role == role then iterations[0] else 0) + Iterations(workers[1..], iterations[1..], role)
  }

  lemma {:induction false} IterationsUpdate(workers: seq<Worker>, iterations: seq<int>, role: Role, w: nat, v: int)
    requires |iterations| == |workers| && w < |workers|
    ensures Iterations(workers, iterations[w := v], role)
         == Iterations(workers, iterations, role) + (if workers[w].role == role then v - iterations[w] else 0)
  {
    if w == 0 {
      assert iterations[w := v][1..] == iterations[1..];
    } else {
      assert iterations[w := v][1..] == iterations[1..][w - 1 := v];
      IterationsUpdate(workers[1..], iterations[1..], role, w - 1, v);
    }
  }

  lemma {:induction false} IterationsNone(workers: seq<Worker>, iterations: seq<int>, role: Role)
    requires |iterations| == |workers| && forall k :: 0 <= k < |iterations| ==> iterations[k] == 0
    ensures Iterations(workers, iterations, role) == 0
  {
    if workers != [] {
      IterationsNone(workers[1..], iterations[1..], role);
    }
  }

  /** The state of the interleaved run: the items queued in the buffer, each thread's
      loop counter, and the items put and taken so far, in order. */
  datatype Threads = Threads(queue: seq<int>, iterations: seq<int>, put: seq<int>, taken: seq<int>)

  /** Before the first turn: the buffer holds `queue` and none of the n threads has run an
      iteration. */
  function Start(queue: seq<int>, n: nat): (s: Threads)
    ensures s.queue == queue && s.put == [] && s.taken == []
    ensures |s.iterations| == n && forall k :: 0 <= k < n ==> s.iterations[k] == 0
  {
    Threads(queue, seq(n, _ => 0), [], [])
  }

  /** Every entry of the schedule names one of the threads. */
  predicate Scheduled(workers: seq<Worker>, schedule: seq<nat>)
  {
    forall s :: 0 <= s < |schedule| ==> schedule[s] < |workers|
  }

  /** One turn of thread w: if its loop has iterations left and its semaphore has a
      permit (a free slot for the producer, a queued item for a consumer), it runs one
      iteration; the producer's iteration k appends pid * 10 + k, a consumer's removes
      the oldest item. Otherwise the thread is blocked or done and nothing changes. */
  function Turn(workers: seq<Worker>, s: Threads, w: nat): (r: Threads)
    requires |s.iterations| == |workers| && w < |workers|
    ensures |r.iterations| == |workers|
  {
    var worker := workers[w];
    if s.iterations[w] >= worker.burstTime then s
    else match worker.role
      case Producer =>
        if |s.queue| < Capacity then
          var item := worker.pid * 10 + s.iterations[w];
          Threads(s.queue + [item], s.iterations[w := s.iterations[w] + 1], s.put + [item], s.taken)
        else s
      case Consumer =>
        if |s.queue| > 0 then
          Threads(s.queue[1..], s.iterations[w := s.iterations[w] + 1], s.put, s.taken + [s.queue[0]])
        else s
  }

  /** The turns of `schedule`, one after another. */
  function RunTurns(workers: seq<Worker>, s: Threads, schedule: seq<nat>): (r: Threads)
    requires |s.iterations| == |workers| && Scheduled(workers, schedule)
    ensures |r.iterations| == |workers|
    decreases |schedule|
  {
    if schedule == [] then s
    else RunTurns(workers, Turn(workers, s, schedule[0]), schedule[1..])
  }

  /** What holds after any number of turns of a run that started with the queue q0: the
      buffer stays within its capacity; the items taken followed by those still queued
      are exactly q0 followed by the items put, in order (first in, first out, nothing
      lost or duplicated); no loop counter passes its thread's burst time; the items put
      and taken are as many as the producers' and consumers' iterations; and with the
      single producer of main, the items put are that producer's items in order. */
  predicate Consistent(workers: seq<Worker>, q0: seq<int>, s: Threads)
  {
    && |s.iterations| == |workers|
    && |s.queue| <= Capacity
    && s.taken + s.queue == q0 + s.put
    && (forall k :: 0 <= k < |workers| ==>
          0 <= s.iterations[k] && (s.iterations[k] == 0 || s.iterations[k] <= workers[k].burstTime))
    && |s.put| == Iterations(workers, s.iterations, Producer)
    && |s.taken| == Iterations(workers, s.iterations, Consumer)
    && (SingleProducer(workers) ==> s.put == ProducerItems(workers[0].pid, s.iterations[0]))
  }

  lemma TurnKeepsConsistent(workers: seq<Worker>, q0: seq<int>, s: Threads, w: nat)
    requires Consistent(workers, q0, s) && w < |workers|
    ensures Consistent(workers, q0, Turn(workers, s, w))
  {
    var r := Turn(workers, s, w);
    if r != s {
      var v := s.iterations[w] + 1;
      IterationsUpdate(workers, s.iterations, Producer, w, v);
      IterationsUpdate(workers, s.iterations, Consumer, w, v);
      if workers[w].role == Producer {
        assert s.taken + r.queue == s.taken + s.queue + [r.put[|r.put| - 1]];
      } else {
        assert s.taken + s.queue == s.taken + [s.queue[0]] + r.queue;
      }
    }
  }

  lemma {:induction false} RunTurnsKeepsConsistent(workers: seq<Worker>, q0: seq<int>, s: Threads, schedule: seq<nat>)
    requires Consistent(workers, q0, s) && Scheduled(workers, schedule)
    ensures Consistent(workers, q0, RunTurns(workers, s, schedule))
    decreases |schedule|
  {
    if schedule != [] {
      TurnKeepsConsistent(workers, q0, s, schedule[0]);
      RunTurnsKeepsConsistent(workers, q0, Turn(workers, s, schedule[0]), schedule[1..]);
    }
  }

  /** Whatever the interleaving, a run that starts from a buffer of at most Capacity
      items and no iterations is Consistent after every schedule. */
  lemma RunTurnsConsistent(workers: seq<Worker>, q0: seq<int>, schedule: seq<nat>)
    requires |q0| <= Capacity && Scheduled(workers, schedule)
    ensures Consistent(workers, q0, RunTurns(workers, Start(q0, |workers|), schedule))
  {
    var s := Start(q0, |workers|);
    IterationsNone(workers, s.iterations, Producer);
    IterationsNone(workers, s.iterations, Consumer);
    RunTurnsKeepsConsistent(workers, q0, s, schedule);
  }

  /** Starting from an empty buffer with main's single producer: once the consumers have
      run as many iterations as the producer, they have taken every item it produced,
      in production order, and the buffer is empty again. */
  lemma EveryItemDelivered(workers: seq<Worker>, schedule: seq<nat>)
    requires SingleProducer(workers) && Scheduled(workers, schedule)
    ensures var r := RunTurns(workers, Start([], |workers|), schedule);
      Iterations(workers, r.iterations, Consumer) == r.iterations[0] ==>
        r.taken == ProducerItems(workers[0].pid, r.iterations[0]) && r.queue == []
  {
    RunTurnsConsistent(workers, [], schedule);
    var r := RunTurns(workers, Start([], |workers|), schedule);
    if Iterations(workers, r.iterations, Consumer) == r.iterations[0] {
      assert |r.put| == r.iterations[0] == |r.taken|;
      assert r.taken + r.queue == r.put;
      assert r.queue == [] by {
        assert |r.taken + r.queue| == |r.taken| + |r.queue|;
      }
      assert r.taken == r.taken + r.queue;
    }
  }

  /** A consumer that finds the buffer empty is blocked for that turn; afterwards it
      takes the producer's items in the order they were produced. */
  lemma EmptyBufferBlocksConsumer()
    ensures var workers := [Worker(Producer, 1, 2), Worker(Consumer, 2, 2)];
      RunTurns(workers, Start([], 2), [1, 0, 0, 1, 1]) == Threads([], [2, 2], [10, 11], [10, 11])
  {
  }

  /** A producer that finds all Capacity slots filled is blocked for that turn, and
      produces the same item once a consumer has freed a slot. */
  lemma FullBufferBlocksProducer()
    ensures var workers := [Worker(Producer, 1, 3), Worker(Consumer, 2, 1)];
      RunTurns(workers, Start([1, 2, 3, 4, 5], 2), [0, 1, 0]) == Threads([2, 3, 4, 5, 10], [1, 1], [10], [1])
  {
  }

  /** The run loops of the threads against the shared Buffer, interleaved by `schedule`:
      each entry lets that thread try one iteration of its loop, calling produce or
      consume only when its semaphore has a permit. Returned: each thread's loop counter,
      the items put and the items taken, in order; these and the buffer's contents are
      those of RunTurns. */
  method RunThreads(b: Buffer, workers: seq<Worker>, schedule: seq<nat>)
      returns (iterations: seq<int>, put: seq<int>, taken: seq<int>)
    requires b.Valid()
    requires Scheduled(workers, schedule)
    modifies b
    ensures b.Valid()
    ensures Threads(b.buffer, iterations, put, taken)
         == RunTurns(workers, Start(old(b.buffer), |workers|), schedule)
  {
    iterations := seq(|workers|, _ => 0);
    put, taken := [], [];
    for s := 0 to |schedule|
      invariant b.Valid()
      invariant |iterations| == |workers|
      invariant RunTurns(workers, Threads(b.buffer, iterations, put, taken), schedule[s..])
             == RunTurns(workers, Start(old(b.buffer), |workers|), schedule)
    {
      ghost var here := Threads(b.buffer, iterations, put, taken);
      assert schedule[s..][0] == schedule[s] && schedule[s..][1..] == schedule[s + 1..];
      var w := schedule[s];
      var worker := workers[w];
      if iterations[w] < worker.burstTime {
        match worker.role
        case Producer =>
          if b.empty > 0 {
            var item := worker.pid * 10 + iterations[w];
            b.Produce(item);
            put := put + [item];
            iterations := iterations[w := iterations[w] + 1];
          }
        case Consumer =>
          if b.full > 0 {
            var item := b.Consume();
            taken := taken + [item];
            iterations := iterations[w := iterations[w] + 1];
          }
      }
      assert Threads(b.buffer, iterations, put, taken) == Turn(workers, here, w);
    }
    assert schedule[|schedule|..] == [];
  }
}
