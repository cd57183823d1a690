/**
 * The bookkeeping of the task pool as values: the free queue of recycled
 * task slots, the id -> task map of tasks in use, the in-use count and the
 * id counter. Tasks are opaque handles `H`; what the manager does to a
 * task's own fields lives with the class in module Manager.
 */
module TaskPool {
  import opened OrderedMap

  /** `TASKPOOL_SIZE`: at most this many tasks are in use at once. */
  const TASKPOOL_SIZE: nat := 1024

  /** `usize` and `u64` on the x86-64 target both hold values below 2^64. */
  const WORD_MODULUS: nat := 0x1_0000_0000_0000_0000

  /** `Result<&mut Task, ()>`: the allocated task, or a bare error. */
  datatype AllocResult<H> = Ok(task: H) | Err

  datatype Pool<H> = Pool(queue: seq<H>, live: map<nat, H>, useCount: nat, allocCount: nat)

  /** `wrapping_add(1)` on a `usize`. */
  function WrappingIncrement(n: nat): (r: nat)
    requires n < WORD_MODULUS
    ensures r < WORD_MODULUS
    ensures n + 1 < WORD_MODULUS ==> r == n + 1
    ensures n + 1 == WORD_MODULUS ==> r == 0
  {
    (n + 1) % WORD_MODULUS
  }

  /** The pool `TaskManager::new` builds: nothing queued, nothing mapped, both counters zero. */
  function Empty<H>(): (p: Pool<H>)
    ensures WellFormed(p)
  {
    Pool([], map[], 0, 0)
  }

  /** Every task the pool holds, recycled or in use. */
  ghost function Handles<H>(p: Pool<H>): set<H> {
    (set i | 0 <= i < |p.queue| :: p.queue[i]) + p.live.Values
  }

  /**
   * `allocate`, where `malloc` is what the heap would hand out if asked.
   * Refuses when the pool is full; otherwise recycles the head of the free
   * queue, and only when the queue is empty takes the heap's block, failing
   * if the heap has none. On success the task is registered under the
   * current id counter.
   */
  function AllocateStep<H>(p: Pool<H>, malloc: Option<H>): (res: (Pool<H>, AllocResult<H>))
    requires p.allocCount < WORD_MODULUS
    ensures res.1.Err? <==> p.useCount >= TASKPOOL_SIZE || (p.queue == [] && malloc.None?)
    ensures res.1.Err? ==> res.0 == p
    ensures res.1.Ok? && p.queue != [] ==> res.1.task == p.queue[0] && res.0.queue == p.queue[1..]
    ensures res.1.Ok? && p.queue == [] ==> malloc == Some(res.1.task) && res.0.queue == []
    ensures res.1.Ok? ==> res.0.live == p.live[p.allocCount := res.1.task]
    ensures res.1.Ok? ==> res.0.useCount == p.useCount + 1 && res.0.allocCount == WrappingIncrement(p.allocCount)
    ensures p.useCount <= TASKPOOL_SIZE ==> res.0.useCount <= TASKPOOL_SIZE
  {
    if p.useCount >= TASKPOOL_SIZE then (p, Err)
    else if p.queue != [] then
      Register(p.(queue := p.queue[1..]), p.queue[0])
    else
      match malloc
      case None => (p, Err)
      case Some(h) => Register(p, h)
  }

  /** Stamp `h` with the next id, map that id to it, and count it as in use. */
  function Register<H>(p: Pool<H>, h: H): (Pool<H>, AllocResult<H>)
    requires p.allocCount < WORD_MODULUS
  {
    (Pool(p.queue, p.live[p.allocCount := h], p.useCount + 1, WrappingIncrement(p.allocCount)), Ok(h))
  }

  /**
   * `free` of task `h` whose id field holds `id`: unmap that id, put the
   * task back on the free queue and count one task fewer in use.
   */
  function FreeStep<H>(p: Pool<H>, id: nat, h: H): (q: Pool<H>)
    requires p.useCount > 0
    ensures id !in q.live && forall k :: k in q.live <==> k in p.live && k != id
    ensures forall k :: k in q.live ==> q.live[k] == p.live[k]
    ensures q.queue == p.queue + [h]
    ensures q.useCount == p.useCount - 1 && q.allocCount == p.allocCount
  {
    Pool(p.queue + [h], p.live - {id}, p.useCount - 1, p.allocCount)
  }

  /**
   * The discipline that a pool used as intended keeps: the in-use count is
   * the number of mapped tasks, recycled plus in-use tasks never exceed the
   * pool size, every id handed out is below the counter (so a new id is never
   * already mapped), and no task is held twice, whether twice in the queue,
   * under two ids, or both queued and in use.
   */
  ghost predicate WellFormed<H>(p: Pool<H>) {
    && p.allocCount < WORD_MODULUS
    && p.useCount == |p.live|
    && p.useCount + |p.queue| <= TASKPOOL_SIZE
    && (forall id :: id in p.live ==> id < p.allocCount)
    && (forall i, j :: 0 <= i < j < |p.queue| ==> p.queue[i] != p.queue[j])
    && (forall i, id :: 0 <= i < |p.queue| && id in p.live ==> p.queue[i] != p.live[id])
    && (forall a, b :: a in p.live && b in p.live && a != b ==> p.live[a] != p.live[b])
  }

  /**
   * Allocation keeps the discipline as long as the id counter does not wrap
   * and the heap never hands out a block the pool already holds.
   */
  lemma AllocatePreservesWellFormed<H>(p: Pool<H>, malloc: Option<H>)
    requires WellFormed(p)
    requires p.allocCount + 1 < WORD_MODULUS
    requires malloc.Some? ==> malloc.value !in Handles(p)
    ensures WellFormed(AllocateStep(p, malloc).0)
  {
  }

  /** Freeing a task in use keeps the discipline. */
  lemma FreePreservesWellFormed<H>(p: Pool<H>, id: nat, h: H)
    requires WellFormed(p)
    requires id in p.live && p.live[id] == h
    ensures p.useCount > 0
    ensures WellFormed(FreeStep(p, id, h))
  {
  }

  /**
   * `free` undoes `allocate`: the id map and the in-use count are as they
   * were, and the free queue holds the same tasks as before, plus the task
   * when it came from the heap rather than from the queue.
   */
  lemma {:induction false} FreeUndoesAllocate<H>(p: Pool<H>, malloc: Option<H>)
    requires WellFormed(p)
    requires AllocateStep(p, malloc).1.Ok?
    ensures var (q, r) := AllocateStep(p, malloc);
            var back := FreeStep(q, p.allocCount, r.task);
            && back.live == p.live
            && back.useCount == p.useCount
            && multiset(back.queue) == multiset(p.queue) + (if p.queue == [] then multiset{r.task} else multiset{})
  {
    var (q, r) := AllocateStep(p, malloc);
    var back := FreeStep(q, p.allocCount, r.task);
    assert p.allocCount !in p.live;
    assert back.live == p.live;
    if p.queue != [] {
      assert p.queue == [p.queue[0]] + p.queue[1..];
      assert back.queue == p.queue[1..] + [p.queue[0]];
    }
  }

  /**
   * Once a task has been freed, the next allocation succeeds and recycles
   * from the queue: whatever the heap would have returned is never used.
   */
  lemma AllocateAfterFreeRecycles<H>(p: Pool<H>, id: nat, h: H, malloc: Option<H>)
    requires p.useCount > 0 && p.useCount <= TASKPOOL_SIZE && p.allocCount < WORD_MODULUS
    ensures var q := FreeStep(p, id, h);
            && AllocateStep(q, malloc).1.Ok?
            && AllocateStep(q, malloc) == AllocateStep(q, None)
  {
  }

  /** A call a client makes on the pool. */
  datatype Op<H> = Allocate(malloc: Option<H>) | Free(id: nat, task: H)

  /**
   * A sequence of calls made as intended: no allocation makes the id counter
   * wrap or receives from the heap a block the pool already holds, and every
   * free is of a task that is in use, under its own id.
   */
  ghost predicate Disciplined<H>(p: Pool<H>, ops: seq<Op<H>>)
    decreases |ops|
  {
    ops == [] ||
    match ops[0]
    case Allocate(malloc) =>
      && p.allocCount + 1 < WORD_MODULUS
      && (malloc.Some? ==> malloc.value !in Handles(p))
      && Disciplined(AllocateStep(p, malloc).0, ops[1..])
    case Free(id, h) =>
      && id in p.live && p.live[id] == h && p.useCount > 0
      && Disciplined(FreeStep(p, id, h), ops[1..])
  }

  /** The pool after the calls `ops`. */
  ghost function Run<H>(p: Pool<H>, ops: seq<Op<H>>): Pool<H>
    requires Disciplined(p, ops)
    decreases |ops|
  {
    if ops == [] then p
    else
      match ops[0]
      case Allocate(malloc) => Run(AllocateStep(p, malloc).0, ops[1..])
      case Free(id, h) => Run(FreeStep(p, id, h), ops[1..])
  }

  /** Every disciplined sequence of calls keeps the pool well-formed. */
  lemma {:induction false} RunPreservesWellFormed<H>(p: Pool<H>, ops: seq<Op<H>>)
    requires WellFormed(p) && Disciplined(p, ops)
    ensures WellFormed(Run(p, ops))
    decreases |ops|
  {
    if ops != [] {
      match ops[0]
      case Allocate(malloc) =>
        AllocatePreservesWellFormed(p, malloc);
        RunPreservesWellFormed(AllocateStep(p, malloc).0, ops[1..]);
      case Free(id, h) =>
        FreePreservesWellFormed(p, id, h);
        RunPreservesWellFormed(FreeStep(p, id, h), ops[1..]);
    }
  }

  /**
   * From a new manager, whatever disciplined calls follow: at most
   * `TASKPOOL_SIZE` tasks are in use, the pool never holds more than that
   * many tasks in all, and each id maps to a different task.
   */
  lemma PoolStaysBounded<H>(ops: seq<Op<H>>)
    requires Disciplined(Empty<H>(), ops)
    ensures var p := Run(Empty<H>(), ops);
            && p.useCount <= TASKPOOL_SIZE
            && |p.queue| + |p.live| <= TASKPOOL_SIZE
            && forall a, b :: a in p.live && b in p.live && a != b ==> p.live[a] != p.live[b]
  {
    RunPreservesWellFormed(Empty<H>(), ops);
  }
}
