/**
 * The task pool (server/task_manager.py): three dictionaries updated in place,
 * the pool of admitted tasks in insertion order, the result registry and the
 * set of tasks a worker has taken, plus the files each task owns on disk.
 *
 * Every operation runs as one atomic step, as the pool's lock intends.  The
 * two places where the code re-enters the lock it already holds (the fallback
 * `fail_task` of `complete_task` and the sweep's `clear_task_result`) would
 * deadlock; the model gives them their intended sequential effect.
 */
module Manager {
  import opened Wrappers
  import opened Models
  import opened Utils

  /** config.py defaults. */
  const MaxTaskPoolSize: int := 5
  const ResultRetentionHours: int := 24

  const MillisPerHour: int := 3600000

  predicate Distinct(ids: seq<TaskId>)
  {
    forall i, j :: 0 <= i < j < |ids| ==> ids[i] != ids[j]
  }

  /** A sequence without repetitions has as many elements as its set. */
  lemma {:induction false} DistinctCard(ids: seq<TaskId>)
    requires Distinct(ids)
    ensures |set id | id in ids| == |ids|
  {
    if ids != [] {
      var init := ids[..|ids| - 1];
      var last := ids[|ids| - 1];
      assert Distinct(init);
      DistinctCard(init);
      assert (set id | id in ids) == (set id | id in init) + {last};
      assert last !in (set id | id in init);
    }
  }

  /** `del d[x]` on the insertion order: x is gone, the rest keep their order. */
  function Without(ids: seq<TaskId>, x: TaskId): (r: seq<TaskId>)
    ensures forall y :: y in r <==> y in ids && y != x
    ensures Distinct(ids) ==> Distinct(r)
    ensures x !in ids ==> r == ids
  {
    if ids == [] then []
    else if ids[0] == x then Without(ids[1..], x)
    else
      var rest := Without(ids[1..], x);
      assert Distinct(ids) ==> ids[0] !in rest;
      [ids[0]] + rest
  }

  /** The number of tasks, at the head of `ids`, that are not pending: the index get_next_task stops at. */
  function FirstPendingIndex(ids: seq<TaskId>, pool: map<TaskId, Task>): (k: nat)
    requires forall id :: id in ids ==> id in pool
    ensures k <= |ids|
    ensures forall j :: 0 <= j < k ==> pool[ids[j]].status != Pending
    ensures k < |ids| ==> pool[ids[k]].status == Pending
  {
    if ids == [] then 0
    else if pool[ids[0]].status == Pending then 0
    else 1 + FirstPendingIndex(ids[1..], pool)
  }

  /** How many of the tasks listed in `ids` have status s. */
  function CountStatus(ids: seq<TaskId>, pool: map<TaskId, Task>, s: TaskStatus): (n: nat)
    requires forall id :: id in ids ==> id in pool
    ensures n <= |ids|
  {
    if ids == [] then 0
    else CountStatus(ids[..|ids| - 1], pool, s) + (if pool[ids[|ids| - 1]].status == s then 1 else 0)
  }

  function StatusTotal(ids: seq<TaskId>, pool: map<TaskId, Task>): nat
    requires forall id :: id in ids ==> id in pool
  {
    CountStatus(ids, pool, Pending) + CountStatus(ids, pool, Processing) + CountStatus(ids, pool, Completed)
    + CountStatus(ids, pool, Failed) + CountStatus(ids, pool, Cancelled)
  }

  /** Every task is counted under exactly one status. */
  lemma {:induction false} CountsCoverAll(ids: seq<TaskId>, pool: map<TaskId, Task>)
    requires forall id :: id in ids ==> id in pool
    ensures StatusTotal(ids, pool) == |ids|
  {
    if ids != [] {
      CountsCoverAll(ids[..|ids| - 1], pool);
    }
  }

  /** The state get_next_task moves a task to. */
  function MarkStarted(t: Task, now: Timestamp): Task
  {
    t.(status := Processing, startedAt := Some(now))
  }

  /** The state fail_task moves a task to. */
  function MarkFailed(t: Task, message: string, now: Timestamp): Task
  {
    t.(status := Failed, completedAt := Some(now), errorMessage := Some(message))
  }

  /** The state cancel_task moves a task to. */
  function MarkCancelled(t: Task, now: Timestamp): Task
  {
    t.(status := Cancelled, completedAt := Some(now))
  }

  /** cancel_task acts only on a task that is pending or processing. */
  predicate Cancellable(t: Task)
  {
    t.status == Pending || t.status == Processing
  }

  /** The retention test of the sweep: strictly older than the retention period. */
  predicate Expired(r: TaskResult, now: Timestamp, retentionHours: int)
  {
    now - r.createdAt > retentionHours * MillisPerHour
  }

  function ExpiredIds(results: map<TaskId, TaskResult>, now: Timestamp, retentionHours: int): set<TaskId>
  {
    set id | id in results && Expired(results[id], now, retentionHours)
  }

  function ResultPaths(ids: set<TaskId>): set<Path>
  {
    set id | id in ids :: ResultPath(id)
  }

  /** The files cleanup_all removes for the tasks listed in `ids`. */
  function PoolTargets(ids: seq<TaskId>, pool: map<TaskId, Task>): set<Path>
    requires forall id :: id in ids ==> id in pool
  {
    if ids == [] then {}
    else
      var t := pool[ids[|ids| - 1]];
      PoolTargets(ids[..|ids| - 1], pool) + CleanupTargets(t.id, t.zipFilePath)
  }

  /** The zip complete_task removes once the result is saved: the task's zip, when it has one. */
  function ZipTarget(zipFilePath: Option<Path>): set<Path>
  {
    if IsSet(zipFilePath) then {zipFilePath.value} else {}
  }

  /** The first loop of sweep_expired_results: the ids of the expired results. */
  method CollectExpired(results: map<TaskId, TaskResult>, now: Timestamp, retentionHours: int) returns (expired: set<TaskId>)
    ensures expired == ExpiredIds(results, now, retentionHours)
  {
    expired := {};
    var rest := results.Keys;
    while rest != {}
      invariant rest <= results.Keys
      invariant expired == ExpiredIds(results, now, retentionHours) - rest
      decreases rest
    {
      var id :| id in rest;
      if Expired(results[id], now, retentionHours) {
        expired := expired + {id};
      }
      rest := rest - {id};
    }
  }

  /** The first loop of cleanup_all: cleanup_task_files for every pooled task, in insertion order. */
  method RemovePoolFiles(disk: Disk, ids: seq<TaskId>, pool: map<TaskId, Task>)
    requires forall id :: id in ids ==> id in pool
    modifies disk
    ensures disk.files == old(disk.files) - PoolTargets(ids, pool)
  {
    var i := 0;
    while i < |ids|
      invariant 0 <= i <= |ids|
      invariant disk.files == old(disk.files) - PoolTargets(ids[..i], pool)
    {
      var task := pool[ids[i]];
      CleanupTaskFiles(disk, task.id, task.zipFilePath);
      assert ids[..i + 1][..i] == ids[..i];
      i := i + 1;
    }
    assert ids[..i] == ids;
  }

  /** The second loop of cleanup_all: the result file of every stored result. */
  method RemoveResultFiles(disk: Disk, results: map<TaskId, TaskResult>)
    requires forall id :: id in results ==> results[id].taskId == id
    modifies disk
    ensures disk.files == old(disk.files) - ResultPaths(results.Keys)
  {
    var rest := results.Keys;
    while rest != {}
      invariant rest <= results.Keys
      invariant disk.files == old(disk.files) - ResultPaths(results.Keys - rest)
      decreases rest
    {
      var id :| id in rest;
      CleanupTaskFiles(disk, results[id].taskId, None);
      assert ResultPaths(results.Keys - (rest - {id})) == ResultPaths(results.Keys - rest) + {ResultPath(id)};
      rest := rest - {id};
    }
    assert results.Keys - rest == results.Keys;
  }

  class TaskManager {
    var taskPool: map<TaskId, Task>
    /** The keys of taskPool in insertion order (Python dictionaries iterate in this order). */
    var order: seq<TaskId>
    var resultPool: map<TaskId, TaskResult>
    var processingTasks: map<TaskId, Task>
    const maxPoolSize: int
    const disk: Disk

    ghost predicate Valid()
      reads this
    {
      && Distinct(order)
      && (forall id :: id in taskPool <==> id in order)
      && (forall id :: id in processingTasks ==> id in taskPool)
      && (forall id :: id in taskPool ==> taskPool[id].id == id)
      && (forall id :: id in resultPool ==> resultPool[id].taskId == id)
    }

    /** An empty pool over the given file system, with the configured capacity. */
    constructor (disk: Disk)
      ensures Valid()
      ensures taskPool == map[] && order == [] && resultPool == map[] && processingTasks == map[]
      ensures this.maxPoolSize == MaxTaskPoolSize && this.disk == disk
    {
      taskPool := map[];
      order := [];
      resultPool := map[];
      processingTasks := map[];
      this.maxPoolSize := MaxTaskPoolSize;
      this.disk := disk;
    }

    /** The pool size is the length of the insertion order. */
    lemma PoolSize()
      requires Valid()
      ensures |taskPool| == |order|
    {
      DistinctCard(order);
      assert taskPool.Keys == set id | id in order;
    }

    /** The tasks a worker holds are a subset of the pool, so there are no more of them. */
    lemma ProcessingBounded()
      requires Valid()
      ensures |processingTasks| <= |taskPool|
    {
      var a, b := processingTasks.Keys, taskPool.Keys;
      assert a <= b;
      assert b == a + (b - a);
      assert |b| == |a| + |b - a|;
    }

    /** is_pool_full. */
    function IsPoolFull(): (full: bool)
      requires Valid()
      reads this
      ensures full <==> |order| >= maxPoolSize
    {
      PoolSize();
      |taskPool| >= maxPoolSize
    }

    /** get_pool_status: never more tasks processing than tasks in the pool. */
    function GetPoolStatus(): (r: PoolStatusResponse)
      requires Valid()
      reads this
      ensures r.currentSize == |taskPool| && r.maxSize == maxPoolSize
      ensures r.isFull <==> r.currentSize >= r.maxSize
      ensures r.processingCount == |processingTasks| <= r.currentSize
    {
      ProcessingBounded();
      PoolStatusResponse(|taskPool| >= maxPoolSize, |taskPool|, maxPoolSize, |processingTasks|)
    }

    /** get_task_status: the pooled task, if any. */
    function GetTaskStatus(id: TaskId): (r: Option<Task>)
      requires Valid()
      reads this
      ensures r.Some? <==> id in order
      ensures r.Some? ==> r.value == taskPool[id] && r.value.id == id
    {
      if id in taskPool then Some(taskPool[id]) else None
    }

    /** get_task_result: the stored result, if any. */
    function GetTaskResult(id: TaskId): (r: Option<TaskResult>)
      requires Valid()
      reads this
      ensures r.Some? <==> id in resultPool
      ensures r.Some? ==> r.value == resultPool[id] && r.value.taskId == id
    {
      if id in resultPool then Some(resultPool[id]) else None
    }

    /**
     * add_task: refused when the pool is full.  Otherwise the task is stored
     * under its id; an existing id keeps its place in the order and its old
     * task's files are cleaned when it had a zip path.  The processing map is
     * not touched, so a task being processed stays there after an overwrite.
     */
    method AddTask(task: Task) returns (added: bool)
      requires Valid()
      modifies this, disk
      ensures Valid()
      ensures added <==> old(|taskPool|) < maxPoolSize
      ensures resultPool == old(resultPool) && processingTasks == old(processingTasks)
      ensures !added ==> taskPool == old(taskPool) && order == old(order) && disk.files == old(disk.files)
      ensures added ==>
        && taskPool == old(taskPool)[task.id := task]
        && order == (if task.id in old(taskPool) then old(order) else old(order) + [task.id])
        && disk.files == (if task.id in old(taskPool) && IsSet(old(taskPool)[task.id].zipFilePath)
                          then old(disk.files) - CleanupTargets(task.id, old(taskPool)[task.id].zipFilePath)
                          else old(disk.files))
      ensures added && task.id in old(taskPool) ==> |taskPool| == old(|taskPool|)
    {
      if |taskPool| >= maxPoolSize {
        return false;
      }
      if task.id in taskPool {
        var oldTask := taskPool[task.id];
        if IsSet(oldTask.zipFilePath) {
          CleanupTaskFiles(disk, oldTask.id, oldTask.zipFilePath);
        }
      } else {
        order := order + [task.id];
      }
      taskPool := taskPool[task.id := task];
      added := true;
    }

    /**
     * get_next_task: the first pending task in insertion order becomes
     * processing, gets its start time and is recorded as processing; with no
     * pending task nothing changes.
     */
    method GetNextTask(now: Timestamp) returns (r: Option<Task>)
      requires Valid()
      modifies this
      ensures Valid()
      ensures order == old(order) && resultPool == old(resultPool)
      ensures var k := FirstPendingIndex(old(order), old(taskPool));
        && (k == |old(order)| ==> r == None && taskPool == old(taskPool) && processingTasks == old(processingTasks))
        && (k < |old(order)| ==>
              var id := old(order)[k];
              && r == Some(MarkStarted(old(taskPool)[id], now))
              && taskPool == old(taskPool)[id := r.value]
              && processingTasks == old(processingTasks)[id := r.value])
    {
      ghost var k := FirstPendingIndex(order, taskPool);
      var i := 0;
      while i < |order|
        invariant 0 <= i <= |order|
        invariant forall j :: 0 <= j < i ==> taskPool[order[j]].status != Pending
        invariant i <= k
      {
        var id := order[i];
        var task := taskPool[id];
        if task.status == Pending {
          var started := MarkStarted(task, now);
          taskPool := taskPool[id := started];
          processingTasks := processingTasks[id := started];
          return Some(started);
        }
        i := i + 1;
      }
      return None;
    }

    /**
     * fail_task, whatever the task's status: it becomes failed with a
     * completion time and the message, its files are cleaned and it leaves the
     * processing map, but it stays in the pool and keeps taking capacity.
     */
    method FailTask(id: TaskId, message: string, now: Timestamp) returns (ok: bool)
      requires Valid()
      modifies this, disk
      ensures Valid()
      ensures ok <==> id in old(taskPool)
      ensures order == old(order) && resultPool == old(resultPool) && |taskPool| == old(|taskPool|)
      ensures !ok ==> taskPool == old(taskPool) && processingTasks == old(processingTasks) && disk.files == old(disk.files)
      ensures ok ==>
        && taskPool == old(taskPool)[id := MarkFailed(old(taskPool)[id], message, now)]
        && processingTasks == old(processingTasks) - {id}
        && disk.files == old(disk.files) - CleanupTargets(id, old(taskPool)[id].zipFilePath)
    {
      if id !in taskPool {
        return false;
      }
      var task := MarkFailed(taskPool[id], message, now);
      taskPool := taskPool[id := task];
      CleanupTaskFiles(disk, id, task.zipFilePath);
      processingTasks := processingTasks - {id};
      ok := true;
    }

    /**
     * complete_task, whatever the task's status.  When the result is saved it
     * is registered, the task's zip is removed and the task leaves both the
     * pool and the processing map.  When saving raises, the task is failed
     * with the error's message (`saveFailure`) and False is returned.
     */
    method CompleteTask(id: TaskId, srtContent: string, now: Timestamp, saveFailure: Option<string>) returns (ok: bool)
      requires Valid()
      modifies this, disk
      ensures Valid()
      ensures ok <==> id in old(taskPool) && saveFailure.None?
      ensures id !in old(taskPool) ==>
        && taskPool == old(taskPool) && order == old(order) && resultPool == old(resultPool)
        && processingTasks == old(processingTasks) && disk.files == old(disk.files)
      ensures ok ==>
        && resultPool == old(resultPool)[id := TaskResult(id, srtContent, now, Some(ResultPath(id)))]
        && taskPool == old(taskPool) - {id}
        && order == Without(old(order), id)
        && processingTasks == old(processingTasks) - {id}
        && disk.files == old(disk.files)[ResultPath(id) := TextFile(srtContent)] - ZipTarget(old(taskPool)[id].zipFilePath)
      ensures id in old(taskPool) && saveFailure.Some? ==>
        && taskPool == old(taskPool)[id := MarkFailed(old(taskPool)[id], saveFailure.value, now)]
        && order == old(order) && resultPool == old(resultPool)
        && processingTasks == old(processingTasks) - {id}
        && disk.files == old(disk.files) - CleanupTargets(id, old(taskPool)[id].zipFilePath)
    {
      if id !in taskPool {
        return false;
      }
      // The code first marks the task completed; both outcomes below overwrite
      // that mark (the task is removed, or marked failed), so it is not kept here.
      var saved := SaveResult(disk, id, srtContent, saveFailure);
      if saved.Err? {
        // the intended effect of the fallback fail_task, which as written re-acquires the held lock
        ok := FailTask(id, saved.error, now);
        ok := false;
      } else {
        Retire(id, TaskResult(id, srtContent, now, Some(saved.value)));
        ok := true;
      }
    }

    /** The bookkeeping of complete_task once the result file is written. */
    method Retire(id: TaskId, result: TaskResult)
      requires Valid() && id in taskPool && result.taskId == id
      modifies this, disk
      ensures Valid()
      ensures resultPool == old(resultPool)[id := result]
      ensures taskPool == old(taskPool) - {id}
      ensures order == Without(old(order), id)
      ensures processingTasks == old(processingTasks) - {id}
      ensures disk.files == old(disk.files) - ZipTarget(old(taskPool)[id].zipFilePath)
    {
      var zip := taskPool[id].zipFilePath;
      ghost var rest := Without(order, id);
      assert forall x :: x in taskPool - {id} <==> x in rest;
      resultPool := resultPool[id := result];
      if IsSet(zip) && zip.value in disk.files {
        disk.files := disk.files - {zip.value};
      }
      processingTasks := processingTasks - {id};
      taskPool := taskPool - {id};
      order := Without(order, id);
    }

    /**
     * cancel_task: only a pending or processing task is cancelled; it gets a
     * completion time, its files are cleaned and it leaves the processing map
     * but stays in the pool.  Otherwise nothing changes.
     */
    method CancelTask(id: TaskId, now: Timestamp) returns (ok: bool)
      requires Valid()
      modifies this, disk
      ensures Valid()
      ensures ok <==> id in old(taskPool) && Cancellable(old(taskPool)[id])
      ensures order == old(order) && resultPool == old(resultPool) && |taskPool| == old(|taskPool|)
      ensures !ok ==> taskPool == old(taskPool) && processingTasks == old(processingTasks) && disk.files == old(disk.files)
      ensures ok ==>
        && taskPool == old(taskPool)[id := MarkCancelled(old(taskPool)[id], now)]
        && processingTasks == old(processingTasks) - {id}
        && disk.files == old(disk.files) - CleanupTargets(id, old(taskPool)[id].zipFilePath)
    {
      if id in taskPool {
        var task := taskPool[id];
        if Cancellable(task) {
          taskPool := taskPool[id := MarkCancelled(task, now)];
          CleanupTaskFiles(disk, id, task.zipFilePath);
          processingTasks := processingTasks - {id};
          return true;
        }
      }
      return false;
    }

    /** clear_task_result: the result and its file go; the pool is not touched. */
    method ClearTaskResult(id: TaskId) returns (ok: bool)
      requires Valid()
      modifies this, disk
      ensures Valid()
      ensures ok <==> id in old(resultPool)
      ensures taskPool == old(taskPool) && order == old(order) && processingTasks == old(processingTasks)
      ensures resultPool == old(resultPool) - {id}
      ensures disk.files == if ok then old(disk.files) - {ResultPath(id)} else old(disk.files)
    {
      if id in resultPool {
        CleanupTaskFiles(disk, id, None);
        resultPool := resultPool - {id};
        return true;
      }
      return false;
    }

    /**
     * One pass of the hourly sweep: every result older than the configured
     * retention period is cleared, with its file; younger results stay.  The clearing
     * calls re-acquire the held lock as written; this is their intended effect.
     */
    method SweepExpiredResults(now: Timestamp)
      requires Valid()
      modifies this, disk
      ensures Valid()
      ensures taskPool == old(taskPool) && order == old(order) && processingTasks == old(processingTasks)
      ensures resultPool == old(resultPool) - ExpiredIds(old(resultPool), now, ResultRetentionHours)
      ensures disk.files == old(disk.files) - ResultPaths(ExpiredIds(old(resultPool), now, ResultRetentionHours))
    {
      var expired := CollectExpired(resultPool, now, ResultRetentionHours);
      // clear them
      var todo := expired;
      while todo != {}
        invariant Valid()
        invariant todo <= expired
        invariant taskPool == old(taskPool) && order == old(order) && processingTasks == old(processingTasks)
        invariant resultPool == old(resultPool) - (expired - todo)
        invariant disk.files == old(disk.files) - ResultPaths(expired - todo)
        decreases todo
      {
        var id :| id in todo;
        var _ := ClearTaskResult(id);
        assert ResultPaths(expired - (todo - {id})) == ResultPaths(expired - todo) + {ResultPath(id)};
        todo := todo - {id};
      }
    }

    /** get_task_count_by_status: a count for each of the five statuses, over the pool in insertion order. */
    method CountByStatus() returns (counts: map<TaskStatus, nat>)
      requires Valid()
      ensures forall s :: s in counts && counts[s] == CountStatus(order, taskPool, s)
      ensures counts[Pending] + counts[Processing] + counts[Completed] + counts[Failed] + counts[Cancelled] == |taskPool|
    {
      counts := map[Pending := 0, Processing := 0, Completed := 0, Failed := 0, Cancelled := 0];
      var i := 0;
      assert order[..i] == [];
      while i < |order|
        invariant 0 <= i <= |order|
        invariant counts.Keys == {Pending, Processing, Completed, Failed, Cancelled}
        invariant forall s :: s in counts ==> counts[s] == CountStatus(order[..i], taskPool, s)
      {
        var task := taskPool[order[i]];
        assert order[..i + 1][..i] == order[..i];
        assert AllStatuses[StatusIndex(task.status)] == task.status;
        counts := counts[task.status := counts[task.status] + 1];
        i := i + 1;
      }
      assert order[..i] == order;
      forall s
        ensures s in counts
      {
        assert AllStatuses[StatusIndex(s)] == s;
      }
      CountsCoverAll(order, taskPool);
      PoolSize();
    }

    /**
     * cleanup_all: every pooled task's files and every result file are
     * removed, then the three maps are emptied.
     */
    method CleanupAll()
      requires Valid()
      modifies this, disk
      ensures Valid()
      ensures taskPool == map[] && order == [] && resultPool == map[] && processingTasks == map[]
      ensures disk.files == old(disk.files) - PoolTargets(old(order), old(taskPool)) - ResultPaths(old(resultPool).Keys)
    {
      RemovePoolFiles(disk, order, taskPool);
      RemoveResultFiles(disk, resultPool);
      taskPool := map[];
      order := [];
      resultPool := map[];
      processingTasks := map[];
    }
  }
}
