# Task-slot pool of the kernel, in Dafny

This project models `TaskManager` (kernel/src/task/manager.rs), the bounded pool of task slots in the kernel. It proves properties of that model.

The pool holds a free queue of recycled tasks, an ordered id -> task map of the tasks in use, and three counters:
- `max_count`, always `TASKPOOL_SIZE` = 1024;
- `use_count`, the number of tasks in use;
- `alloc_count`, the next id to hand out, which wraps at 2^64.

The operations are:
- `allocate` refuses once 1024 tasks are in use. Otherwise it recycles a task from the free queue. Only when the queue is empty does it ask the heap for a new block, and it fails if the heap has none. It then stamps the task with the current `alloc_count`, maps that id to it and counts it as in use.
- `free` unmaps the task's id, clears its five links and its two saved contexts, queues it for reuse and counts one task fewer in use.
- `get` looks an id up by scanning the map in id order.
- `iter` visits the mapped tasks in that order.

The model has three modules:

- `OrderedMap` (ordered_map.dfy) covers what the code relies on from a `BTreeMap<u64, _>`. Its keys are visited in strictly ascending order and each key exactly once (`SortedKeys`). A `find_map` scan over that order finds exactly what a direct lookup finds (`FindMap`).
- `TaskPool` (task_pool.dfy) describes the bookkeeping as values. Tasks are opaque handles there.
  - `AllocateStep` and `FreeStep` are the two state changes, as pure functions.
  - `WellFormed` is the pool discipline. The in-use count equals the number of mapped tasks. Queued plus mapped tasks never exceed 1024. Every mapped id is below the counter. No task is held twice.
  - Lemmas show that both steps keep the discipline, that a `free` undoes an `allocate`, and that from a new manager any sequence of calls made as intended keeps the pool bounded.
- `Manager` (manager.dfy) is the imperative model.
  - `Task` is a class with the fields the manager writes: the id, the parent, child, sibling, prev and next links, and the two contexts.
  - `TaskManager` is a class with the queue as a `seq<Task>`, the map as a `map<nat, Task>` and the three counters.
  - Each method states its new state as the matching `TaskPool` step applied to the old state (`View()`), and says which task fields it writes.
  - The constructor establishes three invariants, and `Allocate` and `Free` keep them: the pool discipline, "every mapped task carries its key as its id" (`IdsMatch`) and "every queued task is reset" (`QueueReset`). `Allocate` keeps the pool discipline only while the id counter does not wrap. The helpers `Admit` and `Release` state only what their caller needs.

`malloc` is modelled by `Malloc(heapExhausted)`. The caller says whether the heap is exhausted. If not, the method returns a block that did not exist before.

## Model

| member | source | states |
|---|---|---|
| `Manager.TaskManager.constructor` | kernel/src/task/manager.rs:20-28 | The new manager is the empty pool: no queued or mapped tasks, `use_count` and `alloc_count` 0, `max_count` 1024. It satisfies the pool discipline, the ids-match invariant and the queue-reset invariant. |
| `TaskPool.Empty` | kernel/src/task/manager.rs:20-28 | The pool `new` builds satisfies the pool discipline. |
| `Manager.TaskManager.Allocate` | kernel/src/task/manager.rs:30-54 | The new state and the result are `AllocateStep` of the old state. If the pool is not full and the queue is empty, success is exactly "the heap had a block". A heap block is used only when the queue was empty, and it is a fresh object. An `Err` changes nothing. A returned task's id is the old `alloc_count`. The call keeps the pool discipline (given no counter wrap), the ids-match invariant and the queue-reset invariant. A recycled task comes back still reset. |
| `TaskPool.AllocateStep` | kernel/src/task/manager.rs:30-54 | `Err` exactly when `use_count >= 1024`, or when the queue is empty and the heap has no block. An `Err` leaves the pool unchanged. With a non-empty queue the task is its head and the queue loses that head. With an empty queue the task is the heap's block. On success the old counter is mapped to the task, `use_count` grows by one and `alloc_count` advances with wrap-around. `use_count` never passes 1024. |
| `Manager.Malloc` | kernel/src/task/manager.rs:39-45 | Null exactly when the heap is exhausted; otherwise a fresh block. |
| `Manager.TaskManager.Admit` | kernel/src/task/manager.rs:48-52 | Sets the task's id to the old `alloc_count`. The new state is the old state with that id mapped to the task, `use_count` + 1 and `alloc_count` advanced. The ids-match invariant survives when the task was not already mapped. |
| `TaskPool.WrappingIncrement` | kernel/src/task/manager.rs:51 | `wrapping_add(1)`: always below 2^64; one more below the top; 0 from 2^64 - 1. |
| `Manager.TaskManager.Free` | kernel/src/task/manager.rs:56-69 | The new bookkeeping is `FreeStep` of the old one: the id is unmapped, the task is appended to the queue, `use_count` drops by one and `alloc_count` is unchanged. All five links of the task are cleared and both contexts reset. It writes no other task field. It keeps the pool discipline when the freed task was mapped under its own id, and it keeps the ids-match and queue-reset invariants. |
| `Manager.Task.Reset` | kernel/src/task/manager.rs:59-65 | Afterwards the task has no parent, child, sibling, prev or next, an empty context and an initial FPU context. Only those fields are written. |
| `Manager.TaskManager.Release` | kernel/src/task/manager.rs:56-69 | The bookkeeping part of `free`: the new state is `FreeStep` of the old one, and the pool discipline is kept when the task was mapped under its own id. |
| `TaskPool.FreeStep` | kernel/src/task/manager.rs:56-69 | The freed id is no longer mapped. Every other id keeps its task. The task is appended to the queue. `use_count` drops by one and `alloc_count` is unchanged. |
| `TaskPool.AllocatePreservesWellFormed` | kernel/src/task/manager.rs:30-54 | Allocation keeps the pool discipline, as long as the counter does not wrap and the heap hands out a block the pool does not already hold. |
| `TaskPool.FreePreservesWellFormed` | kernel/src/task/manager.rs:56-69 | Freeing a task that is mapped under its id keeps the pool discipline, and such a pool has `use_count > 0`. |
| `TaskPool.FreeUndoesAllocate` | kernel/src/task/manager.rs:30-69 | After a successful allocate, freeing that task restores the map and `use_count`. The queue holds the same tasks as before, plus the task itself if it came from the heap. |
| `TaskPool.AllocateAfterFreeRecycles` | kernel/src/task/manager.rs:36-38 | After a free, the next allocate succeeds from the queue, and its outcome does not depend on what the heap would return. |
| `TaskPool.RunPreservesWellFormed` | kernel/src/task/manager.rs:30-69 | Every sequence of allocates and frees made as intended keeps the pool discipline. |
| `TaskPool.PoolStaysBounded` | kernel/src/task/manager.rs:10-69 | From a new manager, after any such sequence: at most 1024 tasks are in use, queued plus mapped tasks never exceed 1024, and no task is mapped under two ids. |
| `Manager.TaskManager.Get` | kernel/src/task/manager.rs:71-82 | Returns a task exactly when the id is mapped, and then it is the task mapped to that id. It reads the manager and changes nothing. |
| `OrderedMap.FindMap` | kernel/src/task/manager.rs:75-81 | The `find_map` scan over the keys finds a value exactly when the id is among the keys, and then it is the map's value for that id. |
| `Manager.TaskManager.Iter` | kernel/src/task/manager.rs:84-88 | Yields one task per mapped id. Every yielded task is mapped, and every mapped task is yielded. The i-th task yielded is the one mapped to the i-th key in ascending key order (`SortedKeys`). When every mapped task carries its key as its id, the ids yielded strictly increase. |
| `OrderedMap.SortedKeys` | kernel/src/task/manager.rs:84-88 | The key visit has exactly as many entries as the map has keys. |
| `OrderedMap.SortedKeysListsKeys` | kernel/src/task/manager.rs:84-88 | The key visit contains exactly the map's keys. |
| `OrderedMap.SortedKeysAscending` | kernel/src/task/manager.rs:84-88 | The key visit is in strictly ascending order. |

## Left out

- kernel/src/main.rs (driver, filesystem and FPU start-up glue) is not part of this model.
- `malloc` internals (kernel allocator) are not modelled. `Malloc` takes the heap's answer as the parameter `heapExhausted`. The pool-discipline lemma needs a fact the source cannot state: the heap never hands out a block the pool already holds. The model supplies it by making every block a fresh object.
- `RawQueue` (collections::queue) is not part of this model. The free queue is a sequence that pops at the front and pushes at the back. No property proved depends on that order, and `FreeUndoesAllocate` states the queue only as a multiset.
- Manager.TaskManager.QueueReset, Manager.TaskManager.Free and Manager.TaskManager.Allocate: the model assumes that `RawQueue` never writes a task's fields. The source may link queued tasks through their `prev`/`next` fields (`RawNode`, imported by manager.rs). If so, `push` would overwrite the links that `free` just cleared, and `pop` might leave them set. Then the claims that a queued task is reset, that a freed task ends with no `prev`/`next`, and that a recycled task comes back reset would hold for the other fields only. collections::queue is not part of this model, so this cannot be settled here.
- `Context` and `FPUContext` contents are opaque. Only the distinguished empty context and initial FPU state are told apart.
- `Task` fields other than the id, the five links and the two contexts are not modelled.
- Raw pointers, `unsafe` and `'static` lifetimes are modelled as Dafny references. The aliasing the source makes possible (a task freed while still reachable elsewhere) is not modelled.
- The debug logging and the unused `TASK_SIZE` constant are left out. `max_count` is set to 1024 and never read.
- `u64` and `usize` are naturals below 2^64. The source casts `alloc_count` from `usize` to `u64`; on the 64-bit target that cast is the identity, and the model treats it so.
- Manager.TaskManager.Free: requires `use_count > 0`. With `use_count == 0` the source's `use_count -= 1` underflows: it panics in a debug build and wraps in a release build. Neither outcome is modelled.
- Manager.TaskManager.Free: the source does not check that the task is the one mapped under its id. The model does the same and keeps the pool discipline only when it is.
- Manager.TaskManager.Free: the source unmaps the id before clearing the task's fields, while the model clears the fields first (`Task.Reset`, then `Release`). The two touch disjoint state, so the final state is the same.
- Manager.TaskManager.Allocate: the pool discipline is proved preserved only while `alloc_count + 1 < 2^64`. After 2^64 allocations `alloc_count` wraps to 0 and can reuse the id of a task still in use. The map insert then overwrites that entry, and `use_count` stops equalling the number of mapped tasks. The model performs the same overwrite but proves nothing about that state.
- Manager.TaskManager.Iter: the ascending-id statement assumes that every mapped task carries its key as its id. The ascending key order itself is unconditional (`SortedKeysAscending`).
