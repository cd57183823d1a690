/**
 * `TaskManager`, the bounded pool of task slots: a free queue of recycled
 * tasks, an ordered id -> task map of tasks in use, and three counters.
 * Tasks are heap objects whose fields the manager overwrites in place.
 */
module Manager {
  import opened OrderedMap
  import opened TaskPool

  /** A saved register context; `EmptyContext` is `Context::empty()`. */
  datatype Context = EmptyContext | SavedContext(registers: seq<int>)

  /** A saved FPU state; `InitialFpuContext` is `FPUContext::new()`. */
  datatype FpuContext = InitialFpuContext | SavedFpuContext(state: seq<int>)

  /** The fields of a task that the manager reads or writes. */
  class Task {
    var id: nat
    var parent: Task?
    var child: Task?
    var sibling: Task?
    var prev: Task?
    var next: Task?
    var context: Context
    var fpuContext: FpuContext

    /** A block fresh from the heap: its fields hold whatever was there. */
    constructor Uninitialized()
    {
    }

    /** No links to other tasks and nothing saved. */
    predicate IsReset()
      reads this
    {
      && parent == null && child == null && sibling == null
      && prev == null && next == null
      && context == EmptyContext && fpuContext == InitialFpuContext
    }

    /** What `free` does to the task itself: drop every link and saved context. */
    method Reset()
      modifies this`parent, this`child, this`sibling, this`prev, this`next, this`context, this`fpuContext
      ensures IsReset()
    {
      parent := null;
      child := null;
      sibling := null;
      prev := null;
      next := null;
      context := EmptyContext;
      fpuContext := InitialFpuContext;
    }
  }

  /** `malloc` of one task: a new block, or null when the heap is exhausted. */
  method Malloc(heapExhausted: bool) returns (t: Task?)
    ensures t == null <==> heapExhausted
    ensures t != null ==> fresh(t)
  {
    if heapExhausted {
      t := null;
    } else {
      t := new Task.Uninitialized();
    }
  }

  class TaskManager {
    var emptyQueue: seq<Task>
    var taskMap: map<nat, Task>
    var maxCount: nat
    var useCount: nat
    var allocCount: nat

    /** The bookkeeping as a value of module TaskPool. */
    ghost function View(): Pool<Task>
      reads this
    {
      Pool(emptyQueue, taskMap, useCount, allocCount)
    }

    /** What every call keeps, given only what each call demands of its caller. */
    ghost predicate Valid()
      reads this
    {
      && maxCount == TASKPOOL_SIZE
      && useCount <= TASKPOOL_SIZE
      && allocCount < WORD_MODULUS
      && forall id :: id in taskMap ==> id < WORD_MODULUS
    }

    /** Every mapped task carries its key as its id. */
    ghost predicate IdsMatch()
      reads this, taskMap.Values
    {
      forall id :: id in taskMap ==> taskMap[id].id == id
    }

    /** Every task waiting on the free queue is reset. */
    ghost predicate QueueReset()
      reads this, emptyQueue
    {
      forall i :: 0 <= i < |emptyQueue| ==> emptyQueue[i].IsReset()
    }

    /** The task `allocate` would recycle next, if any. */
    function QueueHead(): set<Task>
      reads this
    {
      if emptyQueue == [] then {} else {emptyQueue[0]}
    }

    constructor ()
      ensures Valid() && View() == Empty() && WellFormed(View())
      ensures IdsMatch() && QueueReset()
    {
      emptyQueue := [];
      taskMap := map[];
      useCount := 0;
      allocCount := 0;
      maxCount := TASKPOOL_SIZE;
    }

    /**
     * `allocate`. The heap is consulted only when the free queue is empty;
     * `heapExhausted` says what it answers then, and `malloced` is the block
     * it handed out, if it was asked and had one.
     */
    method Allocate(heapExhausted: bool) returns (r: AllocResult<Task>, ghost malloced: Option<Task>)
      requires Valid()
      modifies this, QueueHead()`id
      ensures Valid()
      ensures (View(), r) == AllocateStep(old(View()), malloced)
      ensures old(useCount) < TASKPOOL_SIZE && old(emptyQueue) == [] ==> (r.Ok? <==> !heapExhausted)
      ensures malloced.Some? ==> fresh(malloced.value) && old(emptyQueue) == []
      ensures r.Err? ==> unchanged(this) && forall t :: t in old(QueueHead()) ==> t.id == old(t.id)
      ensures r.Ok? ==> r.task.id == old(allocCount)
      ensures old(WellFormed(View())) && old(allocCount) + 1 < WORD_MODULUS ==> WellFormed(View())
      ensures old(WellFormed(View()) && IdsMatch()) ==> IdsMatch()
      ensures old(QueueReset()) ==> QueueReset()
      ensures old(QueueReset()) && old(emptyQueue) != [] && r.Ok? ==> r.task.IsReset()
    {
      ghost var before := View();
      r, malloced := Err, None;
      if useCount < TASKPOOL_SIZE {
        var task: Task? := null;
        if emptyQueue != [] {
          task := emptyQueue[0];
          emptyQueue := emptyQueue[1..];
        } else {
          task := Malloc(heapExhausted);
          if task != null {
            malloced := Some(task);
          }
        }
        if task != null {
          Admit(task);
          r := Ok(task);
        }
      }
      if WellFormed(before) && before.allocCount + 1 < WORD_MODULUS {
        AllocatePreservesWellFormed(before, malloced);
      }
    }

    /** The second half of `allocate`: stamp the task with the next id and map it. */
    method Admit(task: Task)
      requires Valid() && useCount < TASKPOOL_SIZE
      modifies this, task`id
      ensures Valid()
      ensures (View(), Ok(task)) == Register(old(View()), task)
      ensures task.id == old(allocCount)
      ensures old(IdsMatch()) && task !in old(taskMap.Values) ==> IdsMatch()
    {
      task.id := allocCount;
      taskMap := taskMap[task.id := task];
      allocCount := WrappingIncrement(allocCount);
      useCount := useCount + 1;
    }

    /**
     * `free`: unmap the task's id, clear its links and saved contexts, put it
     * back on the free queue and count one task fewer in use.
     */
    method Free(task: Task)
      requires Valid() && useCount > 0
      modifies this, task`parent, task`child, task`sibling, task`prev, task`next, task`context, task`fpuContext
      ensures Valid()
      ensures View() == FreeStep(old(View()), task.id, task)
      ensures task.IsReset()
      ensures old(WellFormed(View()) && task.id in taskMap && taskMap[task.id] == task) ==> WellFormed(View())
      ensures old(IdsMatch()) ==> IdsMatch()
      ensures old(QueueReset()) ==> QueueReset()
    {
      task.Reset();
      Release(task);
    }

    /** The bookkeeping half of `free`, once the task itself is reset. */
    method Release(task: Task)
      requires Valid() && useCount > 0
      modifies this
      ensures Valid()
      ensures View() == FreeStep(old(View()), task.id, task)
      ensures old(WellFormed(View()) && task.id in taskMap && taskMap[task.id] == task) ==> WellFormed(View())
    {
      ghost var before := View();
      ghost var live := WellFormed(before) && task.id in taskMap && taskMap[task.id] == task;
      taskMap, emptyQueue, useCount := taskMap - {task.id}, emptyQueue + [task], useCount - 1;
      if live {
        FreePreservesWellFormed(before, task.id, task);
      }
    }

    /** `get`: the task mapped to `id`, found by scanning the map in id order. */
    function Get(id: nat): (r: Option<Task>)
      reads this
      ensures r.Some? <==> id in taskMap
      ensures r.Some? ==> r.value == taskMap[id]
    {
      SortedKeysListsKeys(taskMap.Keys);
      FindMap(SortedKeys(taskMap.Keys), taskMap, id)
    }

    /**
     * `iter`: every mapped task exactly once per id, in ascending id order;
     * when each task carries its key as its id, the ids visited increase.
     */
    function Iter(): (r: seq<Task>)
      reads this
      ensures |r| == |taskMap|
      ensures forall i :: 0 <= i < |r| ==> r[i] in taskMap.Values
      ensures forall id :: id in taskMap ==> taskMap[id] in r
      ensures forall i :: 0 <= i < |r| ==>
                SortedKeys(taskMap.Keys)[i] in taskMap && r[i] == taskMap[SortedKeys(taskMap.Keys)[i]]
      ensures (forall id :: id in taskMap ==> taskMap[id].id == id) ==>
                forall i, j :: 0 <= i < j < |r| ==> r[i].id < r[j].id
    {
      SortedKeysListsKeys(taskMap.Keys);
      SortedKeysAscending(taskMap.Keys);
      var keys := SortedKeys(taskMap.Keys);
      ValuesInOrder(keys, taskMap)
    }
  }
}
