/** The scheduler of tasking.c as a value. The ring is written starting at the current task,
    so following `next` is moving one place to the right. Records of finished tasks are
    freed but never unlinked, and stay in the ring. */
module Scheduler {
  import opened Bits
  import opened HeapSpec
  import opened HeapOwners

  const TASK_SIZE: nat := 24           // sizeof(task_t)
  const TASK_STACK_SIZE: nat := 8192
  const FRAME_SIZE: nat := 20          // five words
  const QUANTUM: nat := 5              // SCHEDULE_EVERY_N_TICKS

  datatype TaskState = Ready | Running | Terminated

  /** A `task_t` at address `addr`; its `next` field is the ring order. */
  datatype Task = Task(addr: nat, esp: nat, stackBase: nat, entry: nat, pid: nat, state: TaskState)

  /** `reaped` logs the pids whose memory `schedule` has freed, in order. */
  datatype Kernel = Kernel(
    ring: seq<Task>, zombie: nat, nextPid: nat, ticks: nat, paused: bool,
    heap: seq<Block>, reaped: seq<nat>)

  datatype Op =
    | Create(entry: nat)
    | Exit
    | Yield                // a direct call of schedule()
    | Tick
    | Pause(paused: bool)
    | Malloc(n: nat)       // the rest of the kernel using the heap
    | Free(p: nat)

  // ----- schedule -----

  /** The ring index where the walk of `schedule` stops when it stands at index `k`; the walk
      ends at the current task itself (index 0) once it has gone round. */
  function Pick(ring: seq<Task>, k: nat): (r: nat)
    requires 1 <= k <= |ring|
    ensures r < |ring| && (r == 0 || (k <= r && !ring[r].state.Terminated?))
    ensures forall j :: k <= j < (if r == 0 then |ring| else r) ==> ring[j].state.Terminated?
    decreases |ring| - k
  {
    if k == |ring| then 0 else if !ring[k].state.Terminated? then k else Pick(ring, k + 1)
  }

  function IndexOf(ring: seq<Task>, addr: nat): (i: nat)
    ensures i <= |ring| && (i < |ring| ==> ring[i].addr == addr)
    ensures forall j :: 0 <= j < i ==> ring[j].addr != addr
  {
    if ring == [] || ring[0].addr == addr then 0 else 1 + IndexOf(ring[1..], addr)
  }

  /** First part of `schedule`: free the pending finished task. */
  function Reap(k: Kernel): Kernel {
    var z := IndexOf(k.ring, k.zombie);
    if k.zombie == 0 || z == |k.ring| then k
    else
      var t := k.ring[z];
      k.(zombie := 0,
         heap := Kfree(Kfree(k.heap, t.stackBase), t.addr),
         reaped := k.reaped + [t.pid])
  }

  function Rotate<T>(s: seq<T>, i: nat): seq<T>
    requires i <= |s|
  {
    s[i..] + s[..i]
  }

  /** Second part: hand the processor to the next task that is not finished. */
  function Dispatch(k: Kernel): Kernel
    requires k.ring != []
  {
    var i := Pick(k.ring, 1);
    if i == 0 then k
    else
      var prev, next := k.ring[0], k.ring[i];
      var left := if prev.state.Running? then prev.(state := Ready) else prev;
      k.(ring := Rotate(k.ring[0 := left][i := next.(state := Running)], i),
         zombie := if prev.state.Terminated? then prev.addr else k.zombie)
  }

  function Schedule(k: Kernel): Kernel
    requires k.ring != []
  {
    Dispatch(Reap(k))
  }

  // ----- The other operations -----

  /** `task_create`: the new kernel and the result, the pid or -1. */
  function TaskCreate(k: Kernel, entry: nat): (Kernel, int)
    requires k.ring != []
  {
    var (h1, t) := Kmalloc(k.heap, TASK_SIZE);
    if t == 0 then (k.(heap := h1), -1 as int)
    else
      var (h2, s) := Kmalloc(h1, TASK_STACK_SIZE);
      if s == 0 then (k.(heap := Kfree(h2, t)), -1 as int)
      else
        var task := Task(t, s + TASK_STACK_SIZE - FRAME_SIZE, s, entry, k.nextPid, Ready);
        (k.(ring := [k.ring[0], task] + k.ring[1..], nextPid := k.nextPid + 1, heap := h2), k.nextPid as int)
  }

  function TaskExit(k: Kernel): Kernel
    requires k.ring != []
  {
    Schedule(k.(ring := k.ring[0 := k.ring[0].(state := Terminated)]))
  }

  function TaskingTick(k: Kernel): Kernel
    requires k.ring != []
  {
    if k.paused then k
    else if k.ticks + 1 >= QUANTUM then Schedule(k.(ticks := 0))
    else k.(ticks := k.ticks + 1)
  }

  function Step(k: Kernel, op: Op): Kernel
    requires k.ring != [] && (op.Malloc? ==> op.n < WORD)
  {
    match op
    case Create(entry) => TaskCreate(k, entry).0
    case Exit => TaskExit(k)
    case Yield => Schedule(k)
    case Tick => TaskingTick(k)
    case Pause(p) => k.(paused := p)
    case Malloc(n) => k.(heap := Kmalloc(k.heap, n).0)
    case Free(p) => k.(heap := Kfree(k.heap, p))
  }

  /** `tasking_init`, once the record of task 0 has been obtained at `t`. */
  function Boot(heap: seq<Block>, t: nat): Kernel {
    Kernel([Task(t, 0, 0, 0, 0, Running)], 0, 1, 0, false, heap, [])
  }

  // ----- Ownership of heap memory -----

  ghost predicate IsReaped(k: Kernel, t: Task) {
    t.pid in k.reaped
  }

  /** No freed record has been handed out again: each still lies in free memory. The code
      reads such records on every walk, so it depends on this. */
  ghost predicate NoReuse(k: Kernel, heap: seq<Block>) {
    forall i :: 0 <= i < |k.ring| && IsReaped(k, k.ring[i]) ==> Stale(heap, k.ring[i].addr, TASK_SIZE)
  }

  ghost predicate Legal(k: Kernel, op: Op)
    requires k.ring != []
  {
    match op
    case Create(entry) =>
      var (h1, t) := Kmalloc(k.heap, TASK_SIZE);
      entry < WORD && NoReuse(k, h1) && NoReuse(k, Kmalloc(h1, TASK_STACK_SIZE).0)
    case Exit => k.ring[0].pid != 0           // task 0 is the idle task
    case Yield => true
    case Tick => true
    case Pause(_) => true
    case Malloc(n) => n < WORD && NoReuse(k, Kmalloc(k.heap, n).0)
    case Free(p) =>
      && Freeable(k.heap, p)
      && forall i :: 0 <= i < |k.ring| && !IsReaped(k, k.ring[i]) ==>
           p == 0 || (p != k.ring[i].addr && p != k.ring[i].stackBase)
  }
}
