/** Value-level reference model of the admission-controlled bounded FIFO
    behind MatrixMultiplicationQueue: what one submission, a run of
    submissions, one worker poll and a run of worker polls do to the
    sequence of pending tasks. The class in QueueSystem is proved against
    these functions. */
module QueueSpec {

  function Min(a: int, b: int): int
  {
    if a <= b then a else b
  }

  /** What one iteration of a worker loop observes. */
  datatype Step<T> =
    | Took(task: T)   // the head task was removed and handed to the worker
    | Empty           // the timed get found nothing; the loop goes round again
    | Stopped         // the running flag is off; the loop exits

  /** One non-blocking submission: a task is appended at the tail unless
      `cap` tasks are already pending, in which case it is dropped. */
  function Offer<T>(items: seq<T>, cap: nat, task: T): (r: seq<T>)
    ensures |items| <= |r| <= |items| + 1
    ensures r[..|items|] == items
    ensures |r| == |items| + 1 <==> |items| < cap
    ensures |r| == |items| + 1 ==> r[|items|] == task
    ensures |items| <= cap ==> |r| <= cap
  {
    if |items| < cap then items + [task] else items
  }

  /** Submitting `tasks` one after another, in order. */
  function Flood<T>(items: seq<T>, cap: nat, tasks: seq<T>): (r: seq<T>)
    decreases |tasks|
  {
    if |tasks| == 0 then items
    else Offer(Flood(items, cap, tasks[..|tasks| - 1]), cap, tasks[|tasks| - 1])
  }

  /** A flood from length L with capacity C accepts exactly the first
      min(n, C - L) tasks, in submission order, and drops the rest. */
  lemma {:induction false} FloodAcceptsPrefix<T>(items: seq<T>, cap: nat, tasks: seq<T>)
    requires |items| <= cap
    ensures Flood(items, cap, tasks) == items + tasks[..Min(|tasks|, cap - |items|)]
    decreases |tasks|
  {
    if |tasks| > 0 {
      var init := tasks[..|tasks| - 1];
      var m := Min(|init|, cap - |items|);
      FloodAcceptsPrefix(items, cap, init);
      assert init[..m] == tasks[..m];
      if |items| + m < cap {
        assert m == |init|;
        assert tasks[..m] + [tasks[|tasks| - 1]] == tasks[..m + 1];
      }
    }
  }

  /** Capacity invariant: no sequence of submissions takes the queue past
      its capacity; the length is exactly min(C, L + n). */
  lemma {:induction false} FloodLength<T>(items: seq<T>, cap: nat, tasks: seq<T>)
    requires |items| <= cap
    ensures |Flood(items, cap, tasks)| == Min(cap, |items| + |tasks|)
    ensures |Flood(items, cap, tasks)| <= cap
  {
    FloodAcceptsPrefix(items, cap, tasks);
  }

  /** Submissions to a full queue are all dropped. */
  lemma {:induction false} FloodFullUnchanged<T>(items: seq<T>, cap: nat, tasks: seq<T>)
    requires |items| == cap
    ensures Flood(items, cap, tasks) == items
    decreases |tasks|
  {
    if |tasks| > 0 {
      FloodFullUnchanged(items, cap, tasks[..|tasks| - 1]);
    }
  }

  /** One worker iteration: while running, take the head if there is one,
      otherwise do nothing; once stopped, take nothing. */
  function Poll<T>(running: bool, items: seq<T>): (r: (Step<T>, seq<T>))
    ensures r.0.Stopped? <==> !running
    ensures r.0.Took? <==> running && |items| > 0
    ensures r.0.Took? ==> [r.0.task] + r.1 == items
    ensures !r.0.Took? ==> r.1 == items
  {
    if !running then (Stopped, items)
    else if |items| == 0 then (Empty, items)
    else (Took(items[0]), items[1..])
  }

  /** `fuel` worker iterations: the tasks handed out, in order, and what
      remains pending. Every task is either handed out once or still
      pending, never both and never twice. */
  function Drain<T>(running: bool, items: seq<T>, fuel: nat): (r: (seq<T>, seq<T>))
    ensures r.0 + r.1 == items
    ensures |r.0| <= fuel
    decreases fuel
  {
    if fuel == 0 then ([], items)
    else
      var (step, rest) := Poll(running, items);
      var (taken, left) := Drain(running, rest, fuel - 1);
      if step.Took? then ([step.task] + taken, left) else (taken, left)
  }

  /** A stopped worker takes nothing, however often it would loop. */
  lemma {:induction false} DrainStopped<T>(items: seq<T>, fuel: nat)
    ensures Drain(false, items, fuel) == ([], items)
    decreases fuel
  {
    if fuel > 0 {
      DrainStopped(items, fuel - 1);
    }
  }

  /** FIFO: a running worker hands out the pending tasks head first, one
      per iteration, until the queue is empty. */
  lemma {:induction false} DrainFifo<T>(items: seq<T>, fuel: nat)
    ensures Drain(true, items, fuel) == (items[..Min(fuel, |items|)], items[Min(fuel, |items|)..])
    decreases fuel
  {
    if fuel > 0 {
      if |items| == 0 {
        DrainFifo(items, fuel - 1);
      } else {
        DrainFifo(items[1..], fuel - 1);
        var k := Min(fuel - 1, |items| - 1);
        assert [items[0]] + items[1..][..k] == items[..k + 1];
        assert items[1..][k..] == items[k + 1..];
      }
    }
  }

  /** End to end: flooding an empty queue and then letting a running
      worker loop hands out exactly the accepted tasks, in submission
      order. */
  lemma FloodThenDrain<T>(cap: nat, tasks: seq<T>, fuel: nat)
    ensures Drain(true, Flood([], cap, tasks), fuel).0
         == tasks[..Min(fuel, Min(|tasks|, cap))]
  {
    FloodAcceptsPrefix([], cap, tasks);
    var accepted := tasks[..Min(|tasks|, cap)];
    assert Flood([], cap, tasks) == accepted;
    DrainFifo(accepted, fuel);
  }
}
