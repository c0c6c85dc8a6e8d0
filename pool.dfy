/**
 * `ThreadPool::enqueue` (include/thread_pool.h) as the sequential step it
 * performs while holding `queue_mutex_`: reject when `stop_` is set,
 * otherwise push one task at the back of `tasks_`. The `std::future` handed
 * back is modelled by the id of the task it is bound to.
 */
module Pool {
  import opened Wrappers

  /** A queued task: the id its future is bound to and the work it wraps. */
  datatype Task<J> = Task(id: nat, job: J)

  /** The result handle `enqueue` returns, bound to one task. */
  datatype Future = Future(taskId: nat)

  /** `std::runtime_error("enqueue on stopped ThreadPool")`. */
  datatype PoolError = EnqueueOnStopped

  /** The fields `enqueue` reads or writes, plus the next task id to hand out. */
  datatype PoolState<J> = PoolState(workers: seq<nat>, tasks: seq<Task<J>>, stop: bool, nextId: nat)

  /**
   * Task ids are handed out consecutively and tasks leave only from the
   * front, so the queue holds consecutive ids ending just below `nextId`.
   */
  ghost predicate ValidState<J>(s: PoolState<J>)
  {
    && |s.tasks| <= s.nextId
    && forall i :: 0 <= i < |s.tasks| ==> s.tasks[i].id == s.nextId - |s.tasks| + i
  }

  /** In a valid state no two queued tasks share an id, and all are below `nextId`. */
  lemma ValidIdsUnique<J>(s: PoolState<J>, i: int, j: int)
    requires ValidState(s) && 0 <= i < j < |s.tasks|
    ensures s.tasks[i].id < s.tasks[j].id < s.nextId
  {
  }

  /** One `enqueue` call: the new state and what the caller gets (a future, or the exception). */
  function EnqueueStep<J>(s: PoolState<J>, job: J): (PoolState<J>, Result<Future, PoolError>)
  {
    if s.stop then (s, Failure(EnqueueOnStopped))
    else (s.(tasks := s.tasks + [Task(s.nextId, job)], nextId := s.nextId + 1), Success(Future(s.nextId)))
  }

  /** A stopped pool throws and leaves the queue as it was. */
  lemma EnqueueOnStoppedPool<J>(s: PoolState<J>, job: J)
    requires s.stop
    ensures EnqueueStep(s, job).1 == Failure(EnqueueOnStopped)
    ensures EnqueueStep(s, job).0 == s
  {
  }

  /**
   * A running pool appends exactly one task at the back; earlier tasks keep
   * their order and contents; `stop_` and `workers_` do not change; the
   * future is bound to the new task, whose id no queued task has.
   */
  lemma EnqueueOnRunningPool<J>(s: PoolState<J>, job: J)
    requires ValidState(s) && !s.stop
    ensures var (t, r) := EnqueueStep(s, job);
      && r.Success?
      && |t.tasks| == |s.tasks| + 1
      && t.tasks[..|s.tasks|] == s.tasks
      && t.tasks[|s.tasks|] == Task(r.value.taskId, job)
      && (forall i :: 0 <= i < |s.tasks| ==> s.tasks[i].id != r.value.taskId)
      && t.stop == s.stop && t.workers == s.workers
  {
  }

  lemma EnqueuePreservesValid<J>(s: PoolState<J>, job: J)
    requires ValidState(s)
    ensures ValidState(EnqueueStep(s, job).0)
  {
  }

  /** A sequence of `enqueue` calls, made one after another, with their results. */
  function EnqueueAll<J>(s: PoolState<J>, jobs: seq<J>): (PoolState<J>, seq<Result<Future, PoolError>>)
    decreases |jobs|
  {
    if jobs == [] then (s, [])
    else
      var first := EnqueueStep(s, jobs[0]);
      var rest := EnqueueAll(first.0, jobs[1..]);
      (rest.0, [first.1] + rest.1)
  }

  function JobsOf<J>(tasks: seq<Task<J>>): (jobs: seq<J>)
    ensures |jobs| == |tasks|
    ensures forall i :: 0 <= i < |tasks| ==> jobs[i] == tasks[i].job
  {
    if tasks == [] then [] else [tasks[0].job] + JobsOf(tasks[1..])
  }

  /** The tasks `jobs` become when numbered consecutively from `first`. */
  function Numbered<J>(first: nat, jobs: seq<J>): (ts: seq<Task<J>>)
    ensures |ts| == |jobs|
    ensures forall i :: 0 <= i < |jobs| ==> ts[i] == Task(first + i, jobs[i])
    decreases |jobs|
  {
    if jobs == [] then [] else [Task(first, jobs[0])] + Numbered(first + 1, jobs[1..])
  }

  /** Every call on a stopped pool throws, and the pool is left as it was. */
  lemma {:induction false} EnqueueAllStopped<J>(s: PoolState<J>, jobs: seq<J>)
    requires s.stop
    ensures var (t, rs) := EnqueueAll(s, jobs);
      t == s && |rs| == |jobs| && forall i :: 0 <= i < |rs| ==> rs[i] == Failure(EnqueueOnStopped)
    decreases |jobs|
  {
    if jobs != [] {
      EnqueueAllStopped(s, jobs[1..]);
    }
  }

  /**
   * On a running pool the calls append the jobs, numbered consecutively from
   * `nextId`, behind the tasks already queued, and change nothing else.
   */
  lemma {:induction false} EnqueueAllRunning<J>(s: PoolState<J>, jobs: seq<J>)
    requires !s.stop
    ensures EnqueueAll(s, jobs).0.tasks == s.tasks + Numbered(s.nextId, jobs)
    ensures EnqueueAll(s, jobs).0.nextId == s.nextId + |jobs|
    ensures EnqueueAll(s, jobs).0.stop == s.stop && EnqueueAll(s, jobs).0.workers == s.workers
    decreases |jobs|
  {
    if jobs == [] {
      assert s.tasks + [] == s.tasks;
    } else {
      var first := EnqueueStep(s, jobs[0]);
      var task := Task(s.nextId, jobs[0]);
      assert first.0.tasks == s.tasks + [task] && first.0.nextId == s.nextId + 1;
      EnqueueAllRunning(first.0, jobs[1..]);
      var later := Numbered(s.nextId + 1, jobs[1..]);
      assert Numbered(s.nextId, jobs) == [task] + later;
      assert EnqueueAll(s, jobs).0 == EnqueueAll(first.0, jobs[1..]).0;
      ConcatAssociative(s.tasks, [task], later);
    }
  }

  lemma ConcatAssociative<T>(a: seq<T>, b: seq<T>, c: seq<T>)
    ensures (a + b) + c == a + (b + c)
  {
  }

  /** On a running pool the i-th call returns the future bound to id `nextId + i`. */
  lemma {:induction false} EnqueueAllFutures<J>(s: PoolState<J>, jobs: seq<J>)
    requires !s.stop
    ensures |EnqueueAll(s, jobs).1| == |jobs|
    ensures forall i :: 0 <= i < |jobs| ==> EnqueueAll(s, jobs).1[i] == Success(Future(s.nextId + i))
    decreases |jobs|
  {
    if jobs != [] {
      var first := EnqueueStep(s, jobs[0]);
      assert first.1 == Success(Future(s.nextId)) && first.0.nextId == s.nextId + 1 && !first.0.stop;
      EnqueueAllFutures(first.0, jobs[1..]);
      var rest := EnqueueAll(first.0, jobs[1..]);
      assert EnqueueAll(s, jobs).1 == [first.1] + rest.1;
    }
  }

  lemma JobsOfConcat<J>(a: seq<Task<J>>, b: seq<Task<J>>)
    ensures JobsOf(a + b) == JobsOf(a) + JobsOf(b)
  {
  }

  /**
   * FIFO: jobs submitted one after another to a running pool end up at the
   * back of the queue in submission order, the tasks already queued stay in
   * front untouched, and the queue stays valid (so every id is unique).
   */
  lemma EnqueueAllFifo<J>(s: PoolState<J>, jobs: seq<J>)
    requires ValidState(s) && !s.stop
    ensures ValidState(EnqueueAll(s, jobs).0)
    ensures EnqueueAll(s, jobs).0.workers == s.workers && !EnqueueAll(s, jobs).0.stop
    ensures JobsOf(EnqueueAll(s, jobs).0.tasks) == JobsOf(s.tasks) + jobs
    ensures |EnqueueAll(s, jobs).0.tasks| == |s.tasks| + |jobs|
    ensures EnqueueAll(s, jobs).0.tasks[..|s.tasks|] == s.tasks
  {
    EnqueueAllRunning(s, jobs);
    var added := Numbered(s.nextId, jobs);
    var t := EnqueueAll(s, jobs).0;
    assert t.tasks == s.tasks + added;
    assert t.tasks[..|s.tasks|] == s.tasks;
    JobsOfConcat(s.tasks, added);
    assert JobsOf(added) == jobs;
  }

  /** The queue fields of the pool; the mutex and condition variable are not modelled. */
  class ThreadPool<J> {
    var workers: seq<nat>
    var tasks: seq<Task<J>>
    var stop: bool
    /** The id the next submitted task gets (stands for the identity of its `packaged_task`). */
    var nextId: nat

    function State(): PoolState<J>
      reads this
    {
      PoolState(workers, tasks, stop, nextId)
    }

    ghost predicate Valid()
      reads this
    {
      ValidState(State())
    }

    /** `enqueue`: the new fields and the returned future are those of one `EnqueueStep`. */
    method Enqueue(job: J) returns (result: Result<Future, PoolError>)
      modifies this
      ensures old(Valid()) ==> Valid()
      ensures (State(), result) == EnqueueStep(old(State()), job)
    {
      if stop {
        return Failure(EnqueueOnStopped);
      }
      var id := nextId;
      tasks := tasks + [Task(id, job)];
      nextId := nextId + 1;
      result := Success(Future(id));
    }
  }
}
