/** The kernel and the processor together: which code runs on which stack, what suspended tasks
    are to find, and what every step of the kernel keeps of it. */
module SwitchSystem {
  import opened Bits
  import opened Memory
  import opened HeapSpec
  import opened HeapLaws
  import HeapRuns
  import opened HeapOwners
  import opened Heap
  import opened HeapPayloads
  import opened Scheduler
  import opened SchedulerLaws
  import opened SchedulerMemory
  import opened TaskRecords
  import opened TaskCreation
  import opened FreedRecords
  import opened RecordReuse
  import opened ContextSwitch
  import opened Tasking
  import opened TaskSwitch

  /** The heap is `[lo, hi)`; the stack of task 0 is `[stack0, stack0 + size0)`, outside it. */
  datatype Zone = Zone(lo: nat, hi: nat, stack0: nat, size0: nat)

  /** Memory, registers, the kernel, the pid of the task on whose stack the processor is, and the
      context each task had at its last call of `switch_to`. Between the choice of a task in
      `schedule` and the call of `switch_to`, the current task of the ring is not `on` yet. */
  datatype System = System(m: seq<byte>, cpu: Context, k: Kernel, on: nat, saved: map<nat, Context>)

  datatype Event =
    | Compute                              // the task that runs changes its own memory
    | Call(op: Op, trampoline: nat)        // it calls the kernel
    | Switch(prev: nat)                    // `schedule` calls switch_to, its task being at place `prev`

  // ----- Stacks -----

  function StackBase(z: Zone, t: Task): nat {
    if t.stackBase == 0 then z.stack0 else t.stackBase
  }

  function StackSize(z: Zone, t: Task): nat {
    if t.stackBase == 0 then z.size0 else TASK_STACK_SIZE
  }

  predicate InStack(z: Zone, t: Task, a: int, n: int) {
    StackBase(z, t) <= a && a + n <= StackBase(z, t) + StackSize(z, t)
  }

  predicate ZoneOk(z: Zone) {
    z.stack0 + z.size0 <= z.lo || z.hi <= z.stack0
  }

  /** Memory of one owner: a live block, or memory outside the heap. */
  ghost predicate Private(heap: seq<Block>, a: nat, n: nat, z: Zone) {
    OwnsBlock(heap, a, n) || a + n <= z.lo || z.hi <= a
  }

  lemma StackPrivate(k: Kernel, i: nat, z: Zone)
    requires MemoryInv(k, z.lo, z.hi) && ZoneOk(z) && i < |k.ring| && !IsReaped(k, k.ring[i])
    ensures Private(k.heap, StackBase(z, k.ring[i]), StackSize(z, k.ring[i]), z)
  {
    assert TaskMemory(k, k.ring[i]);
  }

  lemma RecordInside(k: Kernel, i: nat, lo: nat, hi: nat)
    requires MemoryInv(k, lo, hi) && i < |k.ring|
    ensures InPayload(k.heap, k.ring[i].addr, TASK_SIZE) && lo <= k.ring[i].addr && k.ring[i].addr + TASK_SIZE <= hi
  {
    hide OwnsBlock, Stale, Aligned, Compact, Tiles;
    MemoryInPayloads(k, lo, hi);
    var b :| b in k.heap && b.Payload() <= k.ring[i].addr && k.ring[i].addr + TASK_SIZE <= b.End();
    HeapRuns.BlocksDisjoint(k.heap, b, lo, hi);
  }

  /** The stack of a task that has not been freed meets no record. */
  lemma StackRecord(k: Kernel, i: nat, j: nat, z: Zone)
    requires MemoryInv(k, z.lo, z.hi) && ZoneOk(z) && i < |k.ring| && j < |k.ring| && !IsReaped(k, k.ring[i])
    ensures Disjoint(StackBase(z, k.ring[i]), StackSize(z, k.ring[i]), k.ring[j].addr, TASK_SIZE)
  {
    hide OwnsBlock, Stale, Aligned, Compact, Tiles;
    assert TaskMemory(k, k.ring[i]) && TaskMemory(k, k.ring[j]);
    RecordInside(k, j, z.lo, z.hi);
    if k.ring[i].stackBase != 0 {
      OwnedApart(k.heap, k.ring[i].stackBase, TASK_STACK_SIZE, k.ring[j].addr, TASK_SIZE, z.lo, z.hi);
    }
  }

  /** The stacks of two tasks that have not been freed do not meet. */
  lemma StacksApart(k: Kernel, i: nat, j: nat, z: Zone)
    requires Inv(k, z.lo, z.hi) && ZoneOk(z) && i < |k.ring| && j < |k.ring| && i != j
    requires !IsReaped(k, k.ring[i]) && !IsReaped(k, k.ring[j])
    ensures var t, u := k.ring[i], k.ring[j];
      Disjoint(StackBase(z, t), StackSize(z, t), StackBase(z, u), StackSize(z, u))
  {
    hide OwnsBlock, Stale, WellFormed, Reaps, States;
    var t, u := k.ring[i], k.ring[j];
    assert TaskMemory(k, t) && TaskMemory(k, u) && TaskOk(k, t) && TaskOk(k, u);
    SamePid(k, i, j);
    if t.stackBase != 0 { OwnedInZone(k.heap, t.stackBase, TASK_STACK_SIZE, z.lo, z.hi); }
    if u.stackBase != 0 { OwnedInZone(k.heap, u.stackBase, TASK_STACK_SIZE, z.lo, z.hi); }
    if t.stackBase != 0 && u.stackBase != 0 {
      OwnedApart(k.heap, t.stackBase, TASK_STACK_SIZE, u.stackBase, TASK_STACK_SIZE, z.lo, z.hi);
    }
  }

  lemma OwnedInZone(heap: seq<Block>, p: nat, n: nat, lo: nat, hi: nat)
    requires WellFormed(heap, lo, hi) && OwnsBlock(heap, p, n)
    ensures Tiles(heap, lo, hi) && lo <= p && p + n <= hi
  {
    OwnedBounds(heap, p, n, lo, hi);
  }

  // ----- The invariant -----

  /** The task at place `i` has called `switch_to` and will be resumed. */
  predicate Suspended(k: Kernel, on: nat, i: nat) {
    i < |k.ring| && k.ring[i].pid != on && !k.ring[i].state.Terminated?
  }

  /** Its saved stack pointer names a frame in its own stack that holds its context. */
  ghost predicate Keeps(m: seq<byte>, t: Task, saved: map<nat, Context>, z: Zone) {
    t.pid in saved && FrameAt(m, t.esp, saved[t.pid]) && InStack(z, t, t.esp, FRAME)
  }

  ghost predicate AllKept(m: seq<byte>, k: Kernel, on: nat, saved: map<nat, Context>, z: Zone) {
    forall i :: 0 <= i < |k.ring| && Suspended(k, on, i) ==> Keeps(m, k.ring[i], saved, z)
  }

  /** The running task has a place in the ring and its memory has not been freed. */
  ghost predicate RunsAt(k: Kernel, on: nat, o: nat) {
    o < |k.ring| && k.ring[o].pid == on && !IsReaped(k, k.ring[o])
  }

  ghost predicate KernelStored(m: seq<byte>, k: Kernel, z: Zone) {
    Inv(k, z.lo, z.hi) && Stored(m, k.heap) && RingStored(m, k.ring) && z.hi <= |m| <= WORD && ZoneOk(z)
  }

  ghost predicate SystemInv(s: System, z: Zone) {
    && KernelStored(s.m, s.k, z)
    && (exists o :: 0 <= o < |s.k.ring| && RunsAt(s.k, s.on, o))
    && AllKept(s.m, s.k, s.on, s.saved, z)
  }

  lemma NotFreed(k: Kernel, on: nat, i: nat, lo: nat, hi: nat)
    requires Inv(k, lo, hi) && Suspended(k, on, i)
    ensures !IsReaped(k, k.ring[i])
  {
    if IsReaped(k, k.ring[i]) { ReapedFinished(k, i, lo, hi); }
  }

  lemma KeepsFrame(m: seq<byte>, n: seq<byte>, t: Task, saved: map<nat, Context>, z: Zone)
    requires Keeps(m, t, saved, z) && |n| == |m|
    requires forall x :: StackBase(z, t) <= x < StackBase(z, t) + StackSize(z, t) && 0 <= x < |m| ==> n[x] == m[x]
    ensures Keeps(n, t, saved, z)
  {
    hide Load;
    SameWords(m, n, t.esp);
    SameWords(m, n, t.esp + 4);
    SameWords(m, n, t.esp + 8);
    SameWords(m, n, t.esp + 12);
    SameWords(m, n, t.esp + 16);
  }

  // ----- What the running task may do to memory -----

  ghost predicate InSuspendedStack(k: Kernel, on: nat, z: Zone, x: int) {
    exists i :: 0 <= i < |k.ring| && Suspended(k, on, i) && InStack(z, k.ring[i], x, 1)
  }

  ghost predicate Reserved(s: System, z: Zone, x: int) {
    InHeader(s.k.heap, x) || InRecord(s.k.ring, x) || InSuspendedStack(s.k, s.on, z, x)
  }

  /** The one assumption on tasks: they write neither to block headers, nor to task records, nor to
      the stack of a suspended task. */
  ghost predicate Respects(s: System, n: seq<byte>, z: Zone) {
    && |n| == |s.m|
    && forall x :: 0 <= x < |s.m| && Reserved(s, z, x) ==> n[x] == s.m[x]
  }

  lemma HeadersKept(m: seq<byte>, n: seq<byte>, bs: seq<Block>)
    requires Stored(m, bs) && |n| == |m| && forall x :: 0 <= x < |m| && InHeader(bs, x) ==> n[x] == m[x]
    ensures Stored(n, bs)
  {
    hide Load;
    forall i | 0 <= i < |bs| ensures HeaderAt(n, bs[i], NextAddr(bs, i)) {
      var b := bs[i];
      assert HeaderAt(m, b, NextAddr(bs, i));
      assert b in bs;
      assert forall x :: b.addr <= x < b.Payload() ==> InHeader(bs, x);
      SameWords(m, n, b.addr);
      SameWords(m, n, b.addr + 4);
      SameWords(m, n, b.addr + 8);
    }
  }

  lemma RecordsKept(m: seq<byte>, n: seq<byte>, ring: seq<Task>)
    requires RingStored(m, ring) && |n| == |m| && forall x :: 0 <= x < |m| && InRecord(ring, x) ==> n[x] == m[x]
    ensures RingStored(n, ring)
  {
    hide Load;
    forall i | 0 <= i < |ring| ensures SameBytes(m, n, ring[i].addr, TASK_SIZE) {
      assert RecordAt(m, ring[i], NextTask(ring, i));
      assert ring[i] in ring;
    }
    RingFrame(m, n, ring);
  }

  lemma ComputeInv(s: System, n: seq<byte>, z: Zone)
    requires SystemInv(s, z) && Respects(s, n, z)
    ensures KernelStored(n, s.k, z) && AllKept(n, s.k, s.on, s.saved, z)
  {
    hide Inv, Stored, RingStored, InHeader, InRecord, Keeps;
    HeadersKept(s.m, n, s.k.heap);
    RecordsKept(s.m, n, s.k.ring);
    forall i | 0 <= i < |s.k.ring| && Suspended(s.k, s.on, i) ensures Keeps(n, s.k.ring[i], s.saved, z) {
      forall x | StackBase(z, s.k.ring[i]) <= x < StackBase(z, s.k.ring[i]) + StackSize(z, s.k.ring[i])
        && 0 <= x < |s.m|
        ensures n[x] == s.m[x]
      {
        assert InStack(z, s.k.ring[i], x, 1);
        assert InSuspendedStack(s.k, s.on, z, x);
      }
      KeepsFrame(s.m, n, s.k.ring[i], s.saved, z);
    }
  }

  // ----- What the kernel does to memory -----

  predicate Created?(k: Kernel, op: Op)
    requires k.ring != []
  {
    op.Create? && TaskCreate(k, op.entry).1 != -1
  }

  /** The bytes a kernel operation may change, as the methods of the kernel promise it. */
  ghost predicate KernelWrites(m: seq<byte>, n: seq<byte>, k: Kernel, op: Op, trampoline: nat)
    requires k.ring != [] && (op.Malloc? ==> op.n < WORD)
  {
    match op
    case Create(entry) =>
      if Created?(k, op) then Created(m, n, k, entry, trampoline) else OnlyHeaders(m, n, Kmalloc(k.heap, TASK_SIZE).0)
    case Malloc(size) => OnlyHeaders(m, n, Kmalloc(k.heap, size).0)
    case Free(p) => OnlyHeaders(m, n, k.heap)
    case _ => OnlyKernelData(m, n, k.heap, k.ring)
  }

  ghost predicate SameRange(m: seq<byte>, n: seq<byte>, a: nat, len: nat) {
    |n| == |m| && forall x :: a <= x < a + len && x < |m| ==> n[x] == m[x]
  }

  lemma PrivateNoHeader(heap: seq<Block>, a: nat, n: nat, z: Zone, x: nat)
    requires Tiles(heap, z.lo, z.hi) && Private(heap, a, n, z) && a <= x < a + n
    ensures !InHeader(heap, x)
    ensures !(z.lo <= x < z.hi) || exists b :: b in Live(heap) && b.Payload() <= x < b.End()
  {
    hide Tiles, InHeader;
    if OwnsBlock(heap, a, n) {
      var b :| b in Live(heap) && b.Payload() == a && b.size >= n;
      assert b in heap && b.Payload() <= x < b.End();
    }
    NotInHeader(heap, z.lo, z.hi, x);
  }

  lemma MallocSpares(m: seq<byte>, n: seq<byte>, heap: seq<Block>, size: nat, a: nat, len: nat, z: Zone)
    requires WellFormed(heap, z.lo, z.hi) && size < WORD && OnlyHeaders(m, n, Kmalloc(heap, size).0)
    requires Private(heap, a, len, z)
    ensures SameRange(m, n, a, len)
  {
    hide Kmalloc, Tiles, Aligned, Compact, InHeader, Private;
    forall x | a <= x < a + len && x < |m| ensures n[x] == m[x] {
      PrivateNoHeader(heap, a, len, z, x);
      KmallocFrame(m, n, heap, size, z.lo, z.hi, x);
    }
  }

  lemma FreeSpares(m: seq<byte>, n: seq<byte>, heap: seq<Block>, a: nat, len: nat, z: Zone)
    requires WellFormed(heap, z.lo, z.hi) && OnlyHeaders(m, n, heap) && Private(heap, a, len, z)
    ensures SameRange(m, n, a, len)
  {
    hide Tiles, Aligned, Compact, InHeader, Private;
    forall x | a <= x < a + len && x < |m| ensures n[x] == m[x] {
      PrivateNoHeader(heap, a, len, z, x);
    }
  }

  lemma ScheduleSpares(m: seq<byte>, n: seq<byte>, k: Kernel, i: nat, z: Zone)
    requires MemoryInv(k, z.lo, z.hi) && ZoneOk(z) && i < |k.ring| && !IsReaped(k, k.ring[i])
    requires OnlyKernelData(m, n, k.heap, k.ring)
    ensures SameRange(m, n, StackBase(z, k.ring[i]), StackSize(z, k.ring[i]))
  {
    hide InHeader, Private, MemoryInv;
    var a, len := StackBase(z, k.ring[i]), StackSize(z, k.ring[i]);
    StackPrivate(k, i, z);
    MemoryFacts(k, z.lo, z.hi);
    forall x | a <= x < a + len && x < |m| ensures n[x] == m[x] {
      PrivateNoHeader(k.heap, a, len, z, x);
      if InRecord(k.ring, x) {
        var t :| t in k.ring && t.addr <= x < t.addr + TASK_SIZE;
        var j :| 0 <= j < |k.ring| && k.ring[j] == t;
        StackRecord(k, i, j, z);
        assert false;
      }
    }
  }

  lemma CreateSparesStack(m: seq<byte>, n: seq<byte>, k: Kernel, entry: nat, trampoline: nat, i: nat, z: Zone)
    requires Inv(k, z.lo, z.hi) && ZoneOk(z) && z.hi <= |m| && TaskCreate(k, entry).1 != -1
    requires Created(m, n, k, entry, trampoline) && i < |k.ring| && !IsReaped(k, k.ring[i])
    ensures SameRange(m, n, StackBase(z, k.ring[i]), StackSize(z, k.ring[i]))
  {
    hide Kmalloc, Kfree, WellFormed, RingInv, OwnsBlock, InPayload, Stored, RecordAt, InitialFrame, OnlyTouched,
      MemoryInv, Room, TaskCreate;
    var r, u, c := TaskCreate(k, entry).0, k.ring[i], k.ring[0].addr;
    CreateRoom(k, entry, z.lo, z.hi);
    RoomFacts(r.heap, c, r.ring[1], z.lo, z.hi);
    StackRecord(k, i, 0, z);
    if u.stackBase == 0 {
      OutsideSame(m, n, r.heap, r.ring[1], c, z);
    } else {
      StackClear(k, entry, i, z.lo, z.hi);
      ClearSame(m, n, r.heap, r.ring[1], c, u.stackBase, TASK_STACK_SIZE, z.lo, z.hi);
    }
  }

  lemma RoomFacts(heap: seq<Block>, c: nat, t: Task, lo: nat, hi: nat)
    requires Room(heap, c, t, lo, hi)
    ensures Tiles(heap, lo, hi) && t.esp + FRAME_SIZE == t.stackBase + TASK_STACK_SIZE
  {
  }

  lemma OutsideSame(m: seq<byte>, n: seq<byte>, heap: seq<Block>, t: Task, c: nat, z: Zone)
    requires Room(heap, c, t, z.lo, z.hi) && OnlyTouched(m, n, heap, t, c) && ZoneOk(z)
    ensures SameRange(m, n, z.stack0, z.size0)
  {
    hide Tiles, InHeader;
    RoomInside(heap, c, t, z.lo, z.hi);
    forall x | z.stack0 <= x < z.stack0 + z.size0 && x < |m| ensures n[x] == m[x] {
      NotInHeader(heap, z.lo, z.hi, x);
    }
  }

  lemma RoomInside(heap: seq<Block>, c: nat, t: Task, lo: nat, hi: nat)
    requires Room(heap, c, t, lo, hi)
    ensures lo <= t.addr && lo <= t.esp && lo <= c
  {
    hide Tiles;
    PayloadInside(heap, t.addr, TASK_SIZE, lo, hi);
    PayloadInside(heap, t.stackBase, TASK_STACK_SIZE, lo, hi);
    PayloadInside(heap, c, TASK_SIZE, lo, hi);
  }

  lemma PayloadInside(heap: seq<Block>, a: nat, n: nat, lo: nat, hi: nat)
    requires Tiles(heap, lo, hi) && InPayload(heap, a, n)
    ensures lo <= a && a + n <= hi
  {
    var b :| b in heap && b.Payload() <= a && a + n <= b.End();
    HeapRuns.BlocksDisjoint(heap, b, lo, hi);
  }

  /** The stack of another task stays clear of the new one. */
  lemma StackClear(k: Kernel, entry: nat, i: nat, lo: nat, hi: nat)
    requires Inv(k, lo, hi) && TaskCreate(k, entry).1 != -1 && i < |k.ring|
    requires !IsReaped(k, k.ring[i]) && k.ring[i].stackBase != 0
    ensures var r := TaskCreate(k, entry).0; ClearOf(r.heap, r.ring[1], k.ring[i].stackBase, TASK_STACK_SIZE)
  {
    hide Kmalloc, Kfree, Tiles, Aligned, Compact, OwnsBlock, Stale, InPayload, RingInv;
    var r, u := TaskCreate(k, entry).0, k.ring[i];
    assert TaskMemory(k, u);
    TwoAllocs(k.heap, u.stackBase, TASK_STACK_SIZE, lo, hi);
    OwnsInPayload(r.heap, u.stackBase, TASK_STACK_SIZE);
    CreateOwn(k, entry, lo, hi);
    OwnedApart(r.heap, u.stackBase, TASK_STACK_SIZE, r.ring[1].addr, TASK_SIZE, lo, hi);
    OwnedApart(r.heap, u.stackBase, TASK_STACK_SIZE, r.ring[1].stackBase, TASK_STACK_SIZE, lo, hi);
  }

  /** No kernel operation changes a byte of the stack of a task that has not been freed. */
  lemma KernelSpares(m: seq<byte>, n: seq<byte>, k: Kernel, op: Op, trampoline: nat, i: nat, z: Zone)
    requires Inv(k, z.lo, z.hi) && ZoneOk(z) && z.hi <= |m| && (op.Malloc? ==> op.n < WORD)
    requires k.ring != [] && KernelWrites(m, n, k, op, trampoline) && i < |k.ring| && !IsReaped(k, k.ring[i])
    ensures SameRange(m, n, StackBase(z, k.ring[i]), StackSize(z, k.ring[i]))
  {
    hide Kmalloc, OnlyHeaders, OnlyKernelData, Created, TaskCreate, Inv, Private, SameRange, WellFormed;
    InvParts(k, z.lo, z.hi);
    StackPrivate(k, i, z);
    var a, len := StackBase(z, k.ring[i]), StackSize(z, k.ring[i]);
    match op
    case Create(entry) =>
      if Created?(k, op) {
        CreateSparesStack(m, n, k, entry, trampoline, i, z);
      } else {
        MallocSpares(m, n, k.heap, TASK_SIZE, a, len, z);
      }
    case Malloc(size) => MallocSpares(m, n, k.heap, size, a, len, z);
    case Free(p) => FreeSpares(m, n, k.heap, a, len, z);
    case _ => ScheduleSpares(m, n, k, i, z);
  }
}
