/** The code of the kernel, run on memory, takes exactly the steps that SwitchRuns reasons about. */
module SwitchMachine {
  import opened Bits
  import opened Memory
  import opened HeapSpec
  import opened HeapOwners
  import opened Heap
  import opened HeapPayloads
  import opened Scheduler
  import opened SchedulerLaws
  import opened SchedulerMemory
  import opened TaskRecords
  import opened TaskCreation
  import opened ContextSwitch
  import opened Tasking
  import opened TaskSwitch
  import opened SwitchSystem
  import opened SwitchRuns

  /** Allocations of the rest of the kernel that hand out no freed record keep the ring. */
  lemma OthersKeepRing(m: seq<byte>, n: seq<byte>, k: Kernel, heap: seq<Block>, op: Op, lo: nat, hi: nat)
    requires k.ring != [] && (op.Free? || (op.Malloc? && op.n < WORD)) && heap == Step(k, op).heap
    requires OnlyHeaders(m, n, if op.Malloc? then heap else k.heap)
    requires Inv(k, lo, hi) && Legal(k, op) && hi <= |m| && RingStored(m, k.ring)
    ensures Inv(k.(heap := heap), lo, hi) && RingStored(n, k.ring)
  {
    hide Kmalloc, Kfree, Tiles, Aligned, Compact, OnlyHeaders, RingStored, RecordsInPayloads, Legal, RingInv;
    InvParts(k, lo, hi);
    StepInv(k, op, lo, hi);
    LegalSize(k, op);
    var r := k.(heap := heap);
    assert Step(k, op) == r;
    MemoryInPayloads(k, lo, hi);
    MemoryInPayloads(r, lo, hi);
    HeadersKeepRing(m, n, if op.Malloc? then heap else k.heap, k.ring, lo, hi);
  }

  lemma HeadersAreKernelData(m: seq<byte>, n: seq<byte>, heap: seq<Block>, ring: seq<Task>)
    ensures m == n ==> OnlyKernelData(m, n, heap, ring)
  {
  }

  /** Any operation, as the methods of the kernel carry it out. */
  method CallKernel(tasks: Tasking, op: Op, trampoline: nat, ghost s: System, ghost z: Zone)
    requires tasks.Valid() && Legal(tasks.Abs(), op) && tasks.nextPid < MAX_PID && trampoline < WORD
    requires s.m == tasks.heap.ram[..] && s.k == tasks.Abs() && s.k.ring[0].pid == s.on
    modifies tasks, tasks.heap`blocks, tasks.heap.ram
    ensures tasks.Valid()
    ensures s.k.ring != [] && Next(s, Call(op, trampoline),
      s.(m := tasks.heap.ram[..], k := tasks.Abs(), saved := SavedAfter(s.k, op, trampoline, s.saved)), z)
  {
    hide Stored, RingStored, WellFormed, Inv, RingInv, MemoryInv, OnlyKernelData, OnlyHeaders, Created, NoReuse,
      Kmalloc, Kfree, Scheduler.Schedule, Scheduler.TaskExit, Scheduler.TaskCreate, Scheduler.TaskingTick;
    ghost var lo, hi := tasks.heap.heapBaseAddr, tasks.heap.Limit();
    HeadersAreKernelData(s.m, s.m, s.k.heap, s.k.ring);
    match op
    case Create(entry) =>
      var pid := tasks.TaskCreate(entry, trampoline);
    case Exit =>
      var oldEsp, newEsp := tasks.TaskExit();
    case Yield =>
      var switched, oldEsp, newEsp := tasks.Schedule();
    case Tick =>
      var switched, oldEsp, newEsp := tasks.TaskingTick();
    case Pause(paused) =>
      tasks.SetPaused(paused);
    case Malloc(n) =>
      InvWhole(s.k, lo, hi);
      var p := tasks.heap.Kmalloc(n);
      OthersKeepRing(s.m, tasks.heap.ram[..], s.k, tasks.heap.blocks, op, lo, hi);
      InvParts(tasks.Abs(), lo, hi);
    case Free(p) =>
      InvWhole(s.k, lo, hi);
      tasks.heap.Kfree(p);
      OthersKeepRing(s.m, tasks.heap.ram[..], s.k, tasks.heap.blocks, op, lo, hi);
      InvParts(tasks.Abs(), lo, hi);
  }

  /** The call of `switch_to` at the end of `schedule`. */
  method CallSwitch(tasks: Tasking, cpu: Machine, ghost prev: nat, ghost s: System, ghost z: Zone)
    returns (ghost r: System)
    requires tasks.Valid() && cpu.ram == tasks.heap.ram
    requires cpu.edi < WORD && cpu.esi < WORD && cpu.ebx < WORD && cpu.ebp < WORD
    requires s.m == cpu.ram[..] && s.cpu == cpu.Regs() && s.k == tasks.Abs()
    requires z.lo == tasks.heap.heapBaseAddr && z.hi == tasks.heap.Limit()
    requires SystemInv(s, z) && AtSwitch(s, prev, z)
    modifies cpu, cpu.ram, tasks`ring
    ensures tasks.Valid() && r.m == cpu.ram[..] && r.cpu == cpu.Regs() && r.k == tasks.Abs()
    ensures Next(s, Switch(prev), r, z)
  {
    hide Stored, RingStored, WellFormed, Inv, RingInv, MemoryInv, SystemInv, Switched, Callable, OwnStack, Load,
      FrameAt;
    SwitchCallable(s, prev, z);
    SwitchOwnStack(s, prev, z);
    SwitchTasks(tasks, cpu, prev);
    ghost var to := s.k.ring[0].pid;
    r := System(cpu.ram[..], cpu.Regs(), tasks.Abs(), to, (s.saved - {to})[s.on := Caller(s.m, s.cpu)]);
  }
}
