/**
 * The bookkeeping of utils/ThreadPool.hpp: the FIFO of pending tasks, the list of worker
 * threads the pool owns, and the stop flag.  A thread is an identifier; what it runs is the
 * sequential step `WorkerStep`, which is what one iteration of `workerThread` does once its
 * wait on the condition variable is over.  Workers that `adjustThreadCount` detaches keep
 * running outside the pool's list, and `detachedCount` counts them.
 */
module ThreadPool {
  import opened Wrappers

  /** The worker count `adjustThreadCount` leaves, given the current count and the pending tasks. */
  function Adjusted(current: nat, pending: nat, minThreads: nat, maxThreads: nat): nat
  {
    if pending > current && current < maxThreads then current + 1
    else if pending < current && current > minThreads then minThreads
    else current
  }

  /** Adjusting never takes the worker count out of [minThreads, maxThreads]. */
  lemma AdjustedStaysInBounds(current: nat, pending: nat, minThreads: nat, maxThreads: nat)
    requires minThreads <= current <= maxThreads
    ensures minThreads <= Adjusted(current, pending, minThreads, maxThreads) <= maxThreads
  {
  }

  /** A pool under load only grows, one worker at a time; an idle pool falls straight back to its minimum. */
  lemma AdjustedDirection(current: nat, pending: nat, minThreads: nat, maxThreads: nat)
    ensures pending > current ==> Adjusted(current, pending, minThreads, maxThreads) in {current, current + 1}
    ensures pending < current && current > minThreads ==> Adjusted(current, pending, minThreads, maxThreads) == minThreads
    ensures pending == current ==> Adjusted(current, pending, minThreads, maxThreads) == current
  {
  }

  class ThreadPool<Task> {
    const minThreads: nat
    const maxThreads: nat
    var workers: seq<nat>
    var tasks: seq<Task>
    var stop: bool
    /** Workers detached by a shrink; they go on taking tasks. */
    var detachedCount: nat
    /** The identifier the next started worker gets. */
    var nextId: nat

    /** The worker count lies within the configured bounds. */
    predicate InBounds()
      reads this
    {
      minThreads <= |workers| <= maxThreads
    }

    /** The constructor: `minThreads` workers, no tasks, not stopped. */
    constructor (minThreads: nat, maxThreads: nat)
      ensures this.minThreads == minThreads && this.maxThreads == maxThreads
      ensures |workers| == minThreads && tasks == [] && !stop && detachedCount == 0
      ensures minThreads <= maxThreads ==> InBounds()
    {
      this.minThreads, this.maxThreads := minThreads, maxThreads;
      tasks, stop, detachedCount := [], false, 0;
      var started: seq<nat> := [];
      for i := 0 to minThreads
        invariant |started| == i
      {
        started := started + [i];
      }
      workers, nextId := started, minThreads;
    }

    /**
     * `enqueue`: refused (the `runtime_error`) once stopped; otherwise the new task joins the back of
     * the queue and the worker count is adjusted.
     */
    method Enqueue(task: Task) returns (ok: bool)
      modifies this
      ensures ok <==> !old(stop)
      ensures tasks == old(tasks) + (if ok then [task] else [])
      ensures |workers| == (if ok then Adjusted(|old(workers)|, |tasks|, minThreads, maxThreads) else |old(workers)|)
      ensures detachedCount == old(detachedCount) + (if |workers| < |old(workers)| then |old(workers)| - |workers| else 0)
      ensures old(InBounds()) ==> InBounds()
      ensures stop == old(stop)
    {
      if stop {
        return false;
      }
      tasks := tasks + [task];
      AdjustThreadCount();
      ok := true;
      if old(InBounds()) {
        AdjustedStaysInBounds(|old(workers)|, |tasks|, minThreads, maxThreads);
      }
    }

    /**
     * `adjustThreadCount`: one more worker when tasks outnumber workers and there is room;
     * when workers outnumber tasks and exceed the minimum, detach workers from the back until
     * `minThreads` remain.
     */
    method AdjustThreadCount()
      modifies this
      ensures |workers| == Adjusted(|old(workers)|, |tasks|, minThreads, maxThreads)
      ensures |tasks| > |old(workers)| && |old(workers)| < maxThreads ==>
        workers == old(workers) + [old(nextId)] && nextId == old(nextId) + 1 && detachedCount == old(detachedCount)
      ensures !(|tasks| > |old(workers)| && |old(workers)| < maxThreads) ==>
        && workers <= old(workers) && nextId == old(nextId)
        && detachedCount == old(detachedCount) + (|old(workers)| - |workers|)
      ensures tasks == old(tasks) && stop == old(stop)
    {
      var currentThreads := |workers|;
      var pendingTasks := |tasks|;
      if pendingTasks > currentThreads && currentThreads < maxThreads {
        workers := workers + [nextId];
        nextId := nextId + 1;
      } else if pendingTasks < currentThreads && currentThreads > minThreads {
        for i := 0 to currentThreads - minThreads
          invariant |workers| == currentThreads - i
          invariant workers == old(workers)[..currentThreads - i]
          invariant detachedCount == old(detachedCount) + i
          invariant tasks == old(tasks) && stop == old(stop) && nextId == old(nextId)
        {
          detachedCount := detachedCount + 1;
          workers := workers[..|workers| - 1];
        }
      }
    }

    /**
     * One iteration of `workerThread`, entered once `stop` is set or a task is pending (the
     * condition-variable wait): `None` when the worker returns, stopped with nothing left,
     * otherwise the front task, taken off the queue.
     */
    method WorkerStep() returns (task: Option<Task>)
      requires stop || tasks != []
      modifies this
      ensures task.None? <==> old(stop) && old(tasks) == []
      ensures task.Some? ==> task.value == old(tasks)[0] && tasks == old(tasks)[1..]
      ensures task.None? ==> tasks == old(tasks)
      ensures workers == old(workers) && stop == old(stop) && detachedCount == old(detachedCount)
    {
      if stop && tasks == [] {
        return None;
      }
      task := Some(tasks[0]);
      tasks := tasks[1..];
    }

    /** The destructor's first step: set `stop`, after which enqueues are refused. */
    method Shutdown()
      modifies this
      ensures stop && tasks == old(tasks) && workers == old(workers)
    {
      stop := true;
    }
  }

  /** Two tasks enqueued in order are taken in that order, and adding them grew the pool by one. */
  method FifoOrder<Task>(a: Task, b: Task) returns (first: Option<Task>, second: Option<Task>, workerCount: nat)
    ensures first == Some(a) && second == Some(b)
    ensures workerCount == 2
  {
    var pool := new ThreadPool<Task>(1, 4);
    var okA := pool.Enqueue(a);
    var okB := pool.Enqueue(b);
    workerCount := |pool.workers|;
    first := pool.WorkerStep();
    second := pool.WorkerStep();
  }

  /** After shutdown nothing more is accepted, but the queued task is still run before a worker exits. */
  method ShutdownDrains<Task>(a: Task, b: Task) returns (accepted: bool, taken: Option<Task>, exit: Option<Task>)
    ensures !accepted && taken == Some(a) && exit.None?
  {
    var pool := new ThreadPool<Task>(2, 2);
    var okA := pool.Enqueue(a);
    pool.Shutdown();
    accepted := pool.Enqueue(b);
    taken := pool.WorkerStep();
    exit := pool.WorkerStep();
  }

  /**
   * A shrink detaches workers rather than stopping them, so after shrinking and growing again
   * the pool owns `maxThreads` workers while one more thread still runs the worker loop.
   */
  method ShrinkThenGrow<Task>(a: Task, b: Task, c: Task, d: Task) returns (owned: nat, running: nat)
    ensures owned == 2 && running == 3
  {
    var pool := new ThreadPool<Task>(1, 2);
    var ok := pool.Enqueue(a);
    ok := pool.Enqueue(b);
    var t := pool.WorkerStep();
    t := pool.WorkerStep();
    ok := pool.Enqueue(c);
    ok := pool.Enqueue(d);
    owned := |pool.workers|;
    running := owned + pool.detachedCount;
  }
}
