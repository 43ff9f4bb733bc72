# Admission-controlled matrix-multiplication queue, modelled in Dafny

The system is a queue of matrix-multiplication tasks served by a pool of
workers. `MatrixMultiplicationQueue` (main.py) holds a bounded FIFO
(`queue.Queue(maxsize=queue_size)`), a worker count and an `is_running`
flag. Producers call `add_to_queue`. It never blocks: when the queue is
full the task is dropped and reported as dropped. `test_flooding` and
`stress_test` submit a batch of tasks one after another. Each worker runs
`while self.is_running:` and takes the head task with a timed `get`. An
empty queue just sends it round the loop again. `stop` clears the flag.

This model runs the queue sequentially, as a small state machine. A task
is an opaque value of a type parameter `T`; the matrices it carries do
not affect the queue.

- `queue_spec.dfy` (module `QueueSpec`) is the reference model on values.
  It holds `Offer` (one submission), `Flood` (a batch of submissions, in
  order), `Poll` (one worker iteration) and `Drain` (a number of worker
  iterations). The lemmas state the properties the design promises: the
  capacity bound, drop-on-full, the exact accepted/dropped split of a
  flood, FIFO hand-out, and no loss or duplication.
- `queue_system.dfy` (module `QueueSystem`) holds the class
  `MatrixMultiplicationQueue<T>`. It has a `seq<T>` field of pending
  tasks, a `bool` running flag and constant `capacity` and `numWorkers`.
  Each method changes the object in place and is proved against the
  reference model. The class invariant `Valid()` is
  `0 < capacity && |items| <= capacity`.

`add_to_queue` returns nothing in the source. Its only observable
outcome is the "task dropped" message. In the model `AddToQueue` returns
`accepted`, which is false exactly when that message would be printed.
`TestFlooding` and `StressTest` return the counts of accepted and
dropped tasks in the same way.

`test_flooding(call_rate)` generates `call_rate` random matrix pairs.
In the model the caller passes the `call_rate` tasks as a sequence.

## Model

| member | source | states |
|---|---|---|
| QueueSystem.MatrixMultiplicationQueue.constructor | main.py:9-13 | a new queue is empty, its capacity is `queue_size` (default 10), `num_workers` (default 4) is recorded, and it is running; requires `queue_size > 0` |
| QueueSystem.MatrixMultiplicationQueue.Full | main.py:61 | under the class invariant, the queue is full exactly when `capacity` tasks are pending |
| QueueSystem.MatrixMultiplicationQueue.AddToQueue | main.py:59-64 | accepted iff fewer than `capacity` tasks were pending; if accepted the task is appended at the tail, otherwise contents and flag are unchanged; the capacity bound is preserved |
| QueueSystem.MatrixMultiplicationQueue.Stop | main.py:66-68 | the flag is off afterwards whatever it was before (so stopping is idempotent) and the pending tasks are untouched |
| QueueSystem.MatrixMultiplicationQueue.TestFlooding | main.py:70-75 | from L pending with capacity C, exactly min(n, C - L) of the n tasks are accepted, namely the first ones in submission order; the rest are dropped; the length ends at min(C, L + n); the result equals submitting the tasks one by one |
| QueueSystem.MatrixMultiplicationQueue.StressTest | main.py:77-79 | has the same effect and counts as `TestFlooding` on the same tasks |
| QueueSystem.MatrixMultiplicationQueue.WorkerStep | main.py:21-27 | one loop iteration: when running and non-empty it removes the head and returns it; when running and empty it changes nothing; when stopped it takes nothing |
| QueueSystem.MatrixMultiplicationQueue.RunWorker | main.py:19-37 | the worker loop run for a number of iterations: tasks come out head first; taken tasks followed by what is still pending is exactly the old queue (nothing lost, nothing handed out twice); a stopped queue hands out nothing |
| QueueSpec.Offer | main.py:59-64 | a submission grows the queue by one exactly when it was below capacity, and then the new task is at the tail; earlier tasks keep their places; the capacity bound is preserved |
| QueueSpec.FloodAcceptsPrefix | main.py:70-75 | submitting n tasks one by one from length L accepts exactly the first min(n, C - L) of them, appended in order |
| QueueSpec.FloodLength | main.py:59-75 | capacity invariant: no sequence of submissions takes the length past C; it ends at min(C, L + n) |
| QueueSpec.FloodFullUnchanged | main.py:61-64 | every submission to a full queue is dropped and leaves it unchanged |
| QueueSpec.Poll | main.py:21-27 | a stopped loop takes nothing; a running loop takes a task iff one is pending, and then it is the head and the rest stays in order |
| QueueSpec.Drain | main.py:21-27 | over any number of iterations, the tasks taken followed by those still pending are exactly the original queue, and at most one task is taken per iteration |
| QueueSpec.DrainStopped | main.py:66-68 | once the flag is cleared, no number of loop iterations takes any task |
| QueueSpec.DrainFifo | main.py:19-27 | a running worker hands out the pending tasks in FIFO order, one per iteration, until the queue is empty |
| QueueSpec.FloodThenDrain | main.py:19-75 | a flood into an empty queue, then a running worker: the worker receives exactly the accepted tasks, in submission order |

`worker_process` (main.py:29-37) is the same loop as `worker_thread`
(main.py:19-27). `WorkerStep` and `RunWorker` model both.

## Left out

- `matrix_multiply` / `np.matmul` (main.py:15-17): a floating-point computation in a foreign library. Tasks are opaque values, and the result shape that is printed is not modelled.
- Compute failures: a shape mismatch in `matmul` would raise out of the worker loop. Only `queue.Empty` is caught, so there is no per-task failure isolation to model.
- `start_threads` / `start_processes` (main.py:39-57): creating threads and processes, and daemon flags. The model is sequential. It assumes no interleaving, so the `full()`-then-`put()` race between concurrent producers is not captured. Process mode shares neither the queue nor the flag between processes, and the model claims nothing about it.
- The one-second timeout of `get` and `time.sleep`. An empty-queue `get` is modelled as an iteration that changes nothing.
- RunWorker: `while self.is_running` never ends in a sequential run, because nothing clears the flag while the loop spins. The model runs a given number of iterations (`fuel`) and says nothing about an unbounded run.
- A non-positive `queue_size` (an unbounded `queue.Queue`) is library behaviour. The constructor requires `queue_size > 0`.
- Random matrix generation, printing and the `__main__` wiring (main.py:73-74, 25, 35, 64, 82-105).
