/** MatrixMultiplicationQueue run sequentially: a bounded FIFO of pending
    tasks with drop-on-full admission, a running flag that gates the
    worker loop, and the flooding driver. Tasks are opaque values of the
    type parameter T; the matrices they carry play no part in the queue's
    behaviour. */
module QueueSystem {
  import opened QueueSpec

  class MatrixMultiplicationQueue<T> {
    /** maxsize of the underlying queue, fixed at construction. */
    const capacity: nat
    /** Recorded worker count; only the pool start-up reads it. */
    const numWorkers: int
    /** Pending tasks, head first. */
    var items: seq<T>
    var isRunning: bool

    ghost predicate Valid()
      reads this
    {
      0 < capacity && |items| <= capacity
    }

    /** A new queue is empty, bounded by `queueSize`, and running. */
    constructor (queueSize: int := 10, numWorkers: int := 4)
      requires queueSize > 0
      ensures Valid()
      ensures capacity == queueSize && this.numWorkers == numWorkers
      ensures items == [] && isRunning
    {
      capacity := queueSize;
      this.numWorkers := numWorkers;
      items := [];
      isRunning := true;
    }

    /** The queue's own fullness test for a positive maxsize: full exactly
        when `capacity` tasks are pending. */
    predicate Full(): (full: bool)
      reads this
      ensures Valid() ==> (full <==> |items| == capacity)
      ensures full ==> |items| > 0
    {
      0 < capacity <= |items|
    }

    /** Submit one task: appended at the tail when there is room, dropped
        (queue left untouched) when the queue is full. `accepted` stands
        for the absence of the "task dropped" report. */
    method AddToQueue(task: T) returns (accepted: bool)
      requires Valid()
      modifies this
      ensures Valid()
      ensures accepted <==> old(|items|) < capacity
      ensures items == Offer(old(items), capacity, task)
      ensures accepted ==> items == old(items) + [task]
      ensures !accepted ==> items == old(items)
      ensures isRunning == old(isRunning)
    {
      if !Full() {
        items := items + [task];
        accepted := true;
      } else {
        accepted := false;
      }
    }

    /** Clear the running flag; pending tasks stay where they are. The new
        state does not depend on the old flag, so stopping twice is the
        same as stopping once. */
    method Stop()
      modifies this
      ensures !isRunning
      ensures items == old(items)
    {
      isRunning := false;
    }

    /** Submit `tasks` one by one (the caller supplies what the source
        generates at random). Exactly min(n, C - L) are accepted, in
        submission order, and the rest are dropped. */
    method TestFlooding(tasks: seq<T>) returns (accepted: nat, dropped: nat)
      requires Valid()
      modifies this
      ensures Valid()
      ensures items == Flood(old(items), capacity, tasks)
      ensures accepted == Min(|tasks|, capacity - old(|items|))
      ensures accepted + dropped == |tasks|
      ensures items == old(items) + tasks[..accepted]
      ensures |items| == Min(capacity, old(|items|) + |tasks|)
      ensures isRunning == old(isRunning)
    {
      accepted, dropped := 0, 0;
      var i := 0;
      while i < |tasks|
        invariant 0 <= i <= |tasks|
        invariant Valid()
        invariant items == Flood(old(items), capacity, tasks[..i])
        invariant accepted == |items| - old(|items|)
        invariant accepted + dropped == i
        invariant isRunning == old(isRunning)
      {
        assert tasks[..i + 1][..i] == tasks[..i];
        var ok := AddToQueue(tasks[i]);
        if ok {
          accepted := accepted + 1;
        } else {
          dropped := dropped + 1;
        }
        i := i + 1;
      }
      assert tasks[..i] == tasks;
      FloodAcceptsPrefix(old(items), capacity, tasks);
    }

    /** The stress test is a flood under another name. */
    method StressTest(tasks: seq<T>) returns (accepted: nat, dropped: nat)
      requires Valid()
      modifies this
      ensures Valid()
      ensures items == Flood(old(items), capacity, tasks)
      ensures accepted == Min(|tasks|, capacity - old(|items|))
      ensures accepted + dropped == |tasks|
      ensures items == old(items) + tasks[..accepted]
      ensures isRunning == old(isRunning)
    {
      accepted, dropped := TestFlooding(tasks);
    }

    /** One iteration of the worker loop. */
    method WorkerStep() returns (step: Step<T>)
      requires Valid()
      modifies this
      ensures Valid()
      ensures (step, items) == Poll(old(isRunning), old(items))
      ensures step.Took? ==> step.task == old(items)[0] && items == old(items)[1..]
      ensures isRunning == old(isRunning)
    {
      if !isRunning {
        step := Stopped;
      } else if |items| == 0 {
        step := Empty;
      } else {
        step := Took(items[0]);
        items := items[1..];
      }
    }

    /** The worker loop, run for at most `fuel` iterations: it returns the
        tasks it took, in the order it took them. */
    method RunWorker(fuel: nat) returns (taken: seq<T>)
      requires Valid()
      modifies this
      ensures Valid()
      ensures (taken, items) == Drain(old(isRunning), old(items), fuel)
      ensures taken + items == old(items)
      ensures old(isRunning) ==> taken == old(items)[..Min(fuel, old(|items|))]
      ensures !old(isRunning) ==> taken == [] && items == old(items)
      ensures isRunning == old(isRunning)
    {
      taken := [];
      var budget: nat := fuel;
      while isRunning && budget > 0
        invariant Valid()
        invariant budget <= fuel
        invariant isRunning == old(isRunning)
        invariant !isRunning ==> budget == fuel
        invariant taken == old(items)[..Min(fuel - budget, old(|items|))]
        invariant items == old(items)[Min(fuel - budget, old(|items|))..]
        decreases budget
      {
        var step := WorkerStep();
        if step.Took? {
          taken := taken + [step.task];
        }
        budget := budget - 1;
      }
      if isRunning {
        DrainFifo(old(items), fuel);
      } else {
        DrainStopped(old(items), fuel);
      }
    }
  }
}
