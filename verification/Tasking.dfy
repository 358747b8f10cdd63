/** The scheduler of tasking.c on physical memory: `task_t` records linked by addresses, their
    memory obtained from the heap. Every operation is proved against Scheduler. */
module Tasking {
  import opened Bits
  import opened Memory
  import opened HeapSpec
  import opened HeapLaws
  import HeapRuns
  import opened HeapOwners
  import opened Heap
  import opened HeapPayloads
  import opened Scheduler
  import opened SchedulerLaws
  import opened SchedulerMemory
  import opened SchedulerRuns
  import opened TaskRecords
  import opened TaskCreation

  const MAX_PID: nat := 0x8000_0000

  /** `x` is a byte of some task record. */
  ghost predicate InRecord(ring: seq<Task>, x: int) {
    exists t :: t in ring && t.addr <= x < t.addr + TASK_SIZE
  }

  /** Nothing changed except block headers and task records. */
  ghost predicate OnlyKernelData(m: seq<byte>, n: seq<byte>, heap: seq<Block>, ring: seq<Task>) {
    && |n| == |m|
    && forall x :: 0 <= x < |m| && !InHeader(heap, x) && !InRecord(ring, x) ==> n[x] == m[x]
  }

  /** The walk of `schedule` along the `next` links. */
  method FindNext(ram: array<byte>, prev: nat, ghost ring: seq<Task>) returns (next: nat)
    requires ring != [] && Walkable(ram[..], ring) && prev == ring[0].addr
    requires forall i :: 0 < i < |ring| ==> ring[i].addr != prev
    ensures next == ring[Pick(ring, 1)].addr
  {
    hide Load, Word, Walkable, NextTask, Pick;
    ghost var i := 1;
    WalkReads(ram[..], ring, 0);
    next := Word(ram, prev + 20);
    NextAt(ring, 0);
    while Word(ram, next + 16) == Code(Terminated) && next != prev
      invariant 1 <= i <= |ring| && next + TASK_SIZE <= ram.Length
      invariant next == ring[if i == |ring| then 0 else i].addr
      invariant forall j :: 1 <= j < i ==> ring[j].state.Terminated?
      decreases |ring| - i
    {
      WalkReads(ram[..], ring, i);
      next := Word(ram, next + 20);
      NextAt(ring, i);
      i := i + 1;
    }
    WalkReads(ram[..], ring, if i == |ring| then 0 else i);
    PickIs(ring, 1, i);
  }

  lemma WalkReads(m: seq<byte>, ring: seq<Task>, i: nat)
    requires Walkable(m, ring) && i < |ring|
    ensures ring[i].addr + TASK_SIZE <= |m| && Load(m, ring[i].addr + 20) == NextTask(ring, i)
    ensures Load(m, ring[i].addr + 16) == Code(Terminated) <==> ring[i].state.Terminated?
    ensures NextTask(ring, i) + TASK_SIZE <= |m|
  {
    hide Load;
    assert WalkAt(m, ring[i], NextTask(ring, i));
    var j := if i + 1 < |ring| then i + 1 else 0;
    assert WalkAt(m, ring[j], NextTask(ring, j));
  }

  lemma RecordReads(m: seq<byte>, ring: seq<Task>, i: nat)
    requires RingStored(m, ring) && i < |ring|
    ensures ring[i].addr + TASK_SIZE <= |m|
    ensures Load(m, ring[i].addr + 16) == Code(ring[i].state)
    ensures Load(m, ring[i].addr + 20) == NextTask(ring, i)
    ensures NextTask(ring, i) + TASK_SIZE <= |m|
    ensures Load(m, ring[i].addr + 4) == ring[i].stackBase && Load(m, ring[i].addr) == ring[i].esp
  {
    hide Load;
    assert RecordAt(m, ring[i], NextTask(ring, i));
    var j := if i + 1 < |ring| then i + 1 else 0;
    assert RecordAt(m, ring[j], NextTask(ring, j));
  }

  lemma NextAt(ring: seq<Task>, i: nat)
    requires i < |ring|
    ensures NextTask(ring, i) == ring[if i + 1 == |ring| then 0 else i + 1].addr
  {
  }

  lemma {:induction false} PickIs(ring: seq<Task>, from: nat, i: nat)
    requires 1 <= from <= i <= |ring|
    requires forall j :: from <= j < i ==> ring[j].state.Terminated?
    requires i < |ring| ==> !ring[i].state.Terminated?
    ensures Pick(ring, from) == if i == |ring| then 0 else i
    decreases i - from
  {
    if from < i { PickIs(ring, from + 1, i); }
  }

  /** Stores the six fields of a record. */
  method WriteRecord(ram: array<byte>, ghost t: Task, a: nat, esp: nat, stackBase: nat, entry: nat, pid: nat,
                     state: nat, next: nat)
    requires a == t.addr && a + TASK_SIZE <= ram.Length
    requires esp == t.esp && stackBase == t.stackBase && entry == t.entry && pid == t.pid && state == Code(t.state)
    requires esp < WORD && stackBase < WORD && entry < WORD && pid < WORD && next < WORD
    modifies ram
    ensures RecordAt(ram[..], t, next)
    ensures SameOutside(old(ram[..]), ram[..], a, a + TASK_SIZE)
  {
    hide Load, SameOutside;
    ghost var m := ram[..];
    StoreThreeWords(ram, a, esp, stackBase, entry);
    ghost var m1 := ram[..];
    StoreThreeWords(ram, a + 12, pid, state, next);
    LoadFrame(m1, ram[..], a + 12, a + 24, a);
    LoadFrame(m1, ram[..], a + 12, a + 24, a + 4);
    LoadFrame(m1, ram[..], a + 12, a + 24, a + 8);
    Widen(m, m1, ram[..], a, a + 12, a + 12, a + 24);
  }

  // ----- The two frees of `schedule` -----

  lemma ReapSteps(k: Kernel, lo: nat, hi: nat)
    requires Shape(k) && Reaps(k) && MemoryInv(k, lo, hi) && k.zombie != 0
    ensures var z := IndexOf(k.ring, k.zombie); z < |k.ring| && var t := k.ring[z];
      && t.addr == k.zombie
      && WellFormed(Kfree(k.heap, t.stackBase), lo, hi)
      && Freeable(k.heap, t.stackBase) && Freeable(Kfree(k.heap, t.stackBase), t.addr)
      && Reap(k) == k.(zombie := 0, heap := Kfree(Kfree(k.heap, t.stackBase), t.addr), reaped := k.reaped + [t.pid])
  {
    hide Kfree, Stale, OwnsBlock, WellFormed;
    var t := k.ring[IndexOf(k.ring, k.zombie)];
    assert TaskMemory(k, t) && TaskOk(k, t) && !IsReaped(k, t);
    OwnedFreeable(k.heap, t.stackBase, TASK_STACK_SIZE);
    FreeTwice(k.heap, t.stackBase, t.addr, lo, hi);
  }

  lemma ReapKeepsRing(k: Kernel, m: seq<byte>, m1: seq<byte>, n: seq<byte>, p: nat, q: nat, lo: nat, hi: nat)
    requires MemoryInv(k, lo, hi) && RingStored(m, k.ring) && hi <= |m|
    requires Freeable(k.heap, p) && WellFormed(Kfree(k.heap, p), lo, hi) && Freeable(Kfree(k.heap, p), q)
    requires OnlyHeaders(m, m1, k.heap) && OnlyHeaders(m1, n, Kfree(k.heap, p))
    ensures RingStored(n, k.ring)
    ensures OnlyKernelData(m, n, k.heap, [])
    ensures forall x :: InHeader(Kfree(Kfree(k.heap, p), q), x) ==> InHeader(k.heap, x)
  {
    hide Kfree, Stale, OwnsBlock, Tiles, InHeader, RingStored, RecordsInPayloads, Freeable;
    MemoryInPayloads(k, lo, hi);
    HeadersKeepRing(m, m1, k.heap, k.ring, lo, hi);
    KfreePayloads(k.heap, p, k.ring, lo, hi);
    HeadersKeepRing(m1, n, Kfree(k.heap, p), k.ring, lo, hi);
    forall x | InHeader(Kfree(k.heap, p), x) ensures InHeader(k.heap, x) {
      KfreeHeaders(k.heap, p, x);
    }
    forall x | InHeader(Kfree(Kfree(k.heap, p), q), x) ensures InHeader(k.heap, x) {
      KfreeHeaders(Kfree(k.heap, p), q, x);
      KfreeHeaders(k.heap, p, x);
    }
  }

  lemma KfreePayloads(heap: seq<Block>, p: nat, ring: seq<Task>, lo: nat, hi: nat)
    requires WellFormed(heap, lo, hi) && Freeable(heap, p) && RecordsInPayloads(heap, ring)
    ensures RecordsInPayloads(Kfree(heap, p), ring)
  {
    hide Kfree, WellFormed, InPayload, Freeable;
    forall i | 0 <= i < |ring| ensures InPayload(Kfree(heap, p), ring[i].addr, TASK_SIZE) {
      KfreePayload(heap, p, ring[i].addr, TASK_SIZE, lo, hi);
    }
  }

  /** `Dispatch` as the two state stores and the change of the current task make it. */
  lemma DispatchBySteps(k: Kernel)
    requires k.ring != [] && Pick(k.ring, 1) != 0
    ensures var i := Pick(k.ring, 1);
      var r1 := if k.ring[0].state.Running? then k.ring[0 := k.ring[0].(state := Ready)] else k.ring;
      && 0 < i < |r1| && r1[i].addr == k.ring[i].addr && r1[i].esp == k.ring[i].esp && r1[0].addr == k.ring[0].addr
      && Dispatch(k) == k.(
           ring := Rotate(r1[i := r1[i].(state := Running)], i),
           zombie := if k.ring[0].state.Terminated? then k.ring[0].addr else k.zombie)
      && Dispatch(k).ring[0].addr == k.ring[i].addr && Dispatch(k).ring[0].esp == k.ring[i].esp
      && |Dispatch(k).ring| == |k.ring|
  {
  }

  lemma ApartSame(r: seq<Task>, r': seq<Task>)
    requires Apart(r) && |r| == |r'| && forall i :: 0 <= i < |r| ==> r[i].addr == r'[i].addr
    ensures Apart(r')
    ensures forall x :: InRecord(r', x) <==> InRecord(r, x)
  {
    forall i, j | 0 <= i < j < |r'| ensures Disjoint(r'[i].addr, TASK_SIZE, r'[j].addr, TASK_SIZE) {
      assert Disjoint(r[i].addr, TASK_SIZE, r[j].addr, TASK_SIZE);
    }
    SameRecords(r, r');
    SameRecords(r', r);
  }

  lemma SameRecords(r: seq<Task>, r': seq<Task>)
    requires |r| == |r'| && forall i :: 0 <= i < |r| ==> r[i].addr == r'[i].addr
    ensures forall x :: InRecord(r', x) ==> InRecord(r, x)
  {
    forall x | InRecord(r', x) ensures InRecord(r, x) {
      var t :| t in r' && t.addr <= x < t.addr + TASK_SIZE;
      var i :| 0 <= i < |r'| && r'[i] == t;
      assert r[i] in r;
    }
  }

  /** Setting the `state` field of one record of the ring. */
  method SetState(ram: array<byte>, a: nat, s: TaskState, ghost ring: seq<Task>, ghost i: nat,
                  ghost bs: seq<Block>, ghost lo: nat, ghost hi: nat)
    requires RingStored(ram[..], ring) && Apart(ring) && i < |ring| && a == ring[i].addr
    requires Tiles(bs, lo, hi) && Stored(ram[..], bs) && InPayload(bs, a, TASK_SIZE)
    modifies ram
    ensures RingStored(ram[..], ring[i := ring[i].(state := s)])
    ensures Stored(ram[..], bs)
    ensures OnlyKernelData(old(ram[..]), ram[..], bs, ring)
  {
    hide Load, Word, RingStored, Tiles, Stored, InHeader, Apart;
    ghost var m := ram[..];
    RecordReads(m, ring, i);
    Store(ram, a + 16, Code(s));
    StateStored(m, ram[..], ring, i, s);
    Sub(bs, a, TASK_SIZE, a + 16, 4);
    PayloadStored(m, ram[..], bs, a + 16, 4, lo, hi);
    assert ring[i] in ring;
  }

  lemma MemoryFacts(k: Kernel, lo: nat, hi: nat)
    requires MemoryInv(k, lo, hi)
    ensures Apart(k.ring) && Tiles(k.heap, lo, hi)
    ensures forall i :: 0 <= i < |k.ring| ==> InPayload(k.heap, k.ring[i].addr, TASK_SIZE)
  {
    MemoryInPayloads(k, lo, hi);
  }

  lemma DifferentTask(ring: seq<Task>, i: nat)
    requires ring != [] && Apart(ring) && i < |ring|
    ensures ring[i].addr == ring[0].addr <==> i == 0
  {
    if i > 0 { ApartAt(ring, 0, i); }
  }

  lemma FirstApart(ring: seq<Task>)
    requires ring != [] && Apart(ring)
    ensures forall i :: 0 < i < |ring| ==> ring[i].addr != ring[0].addr
  {
    forall i | 0 < i < |ring| ensures ring[i].addr != ring[0].addr {
      ApartAt(ring, 0, i);
    }
  }

  lemma NoDispatch(k: Kernel)
    requires k.ring != [] && Pick(k.ring, 1) == 0
    ensures Dispatch(k) == k
  {
  }

  lemma TwoParts(m: seq<byte>, m1: seq<byte>, n: seq<byte>, bs: seq<Block>, cs: seq<Block>, ring: seq<Task>)
    requires OnlyKernelData(m, m1, bs, []) && OnlyKernelData(m1, n, cs, ring)
    requires forall x :: InHeader(cs, x) ==> InHeader(bs, x)
    ensures OnlyKernelData(m, n, bs, ring)
  {
  }

  lemma NothingChanged(m: seq<byte>, bs: seq<Block>, ring: seq<Task>)
    ensures OnlyKernelData(m, m, bs, ring)
  {
  }

  lemma TicksBelow(k: Kernel)
    requires RingInv(k)
    ensures k.ticks < QUANTUM && k.ring != []
  {
  }

  /** The task that exits always finds another one to run. */
  lemma ExitSwitches(k: Kernel, lo: nat, hi: nat)
    requires RingInv(k) && k.ring[0].pid != 0
    ensures Pick(k.ring[0 := k.ring[0].(state := Terminated)], 1) != 0
  {
    var e := k.(ring := k.ring[0 := k.ring[0].(state := Terminated)]);
    ExitRing(k);
    ReapRing(e);
    DispatchStates(Reap(e));
  }

  lemma SameKernelData(m: seq<byte>, m1: seq<byte>, n: seq<byte>, bs: seq<Block>, ring: seq<Task>, ring': seq<Task>)
    requires OnlyKernelData(m, m1, bs, ring) && OnlyKernelData(m1, n, bs, ring')
    requires forall x :: InRecord(ring', x) <==> InRecord(ring, x)
    ensures OnlyKernelData(m, n, bs, ring)
  {
  }

  // ----- task_create -----

  lemma SecondFails(heap: seq<Block>, lo: nat, hi: nat)
    requires WellFormed(heap, lo, hi) && Kmalloc(heap, TASK_SIZE).1 != 0
    ensures var (h1, t) := Kmalloc(heap, TASK_SIZE);
      && Freeable(h1, t) && Kfree(h1, t) == heap
      && (Kmalloc(h1, TASK_STACK_SIZE).1 == 0 ==> Kmalloc(h1, TASK_STACK_SIZE).0 == h1)
  {
    hide Kmalloc, Kfree, WellFormed;
    HeapRuns.RoundTrip(heap, TASK_SIZE, lo, hi);
    var b := KmallocStep(heap, TASK_SIZE, lo, hi);
    var h1 := Kmalloc(heap, TASK_SIZE).0;
    var _ := KmallocStep(h1, TASK_STACK_SIZE, lo, hi);
    assert b in Live(h1);
  }

  /** Stores the fabricated frame. */
  method WriteFrame(ram: array<byte>, sp: nat, trampoline: nat)
    requires sp + FRAME_SIZE <= ram.Length && trampoline < WORD
    modifies ram
    ensures InitialFrame(ram[..], sp, trampoline)
    ensures SameOutside(old(ram[..]), ram[..], sp, sp + FRAME_SIZE)
  {
    hide Load, SameOutside;
    ghost var m := ram[..];
    StoreThreeWords(ram, sp, 0, 0, 0);
    ghost var m1 := ram[..];
    Store(ram, sp + 12, 0);
    ghost var m2 := ram[..];
    Store(ram, sp + 16, trampoline);
    LoadFrame(m1, m2, sp + 12, sp + 16, sp);
    LoadFrame(m1, m2, sp + 12, sp + 16, sp + 4);
    LoadFrame(m1, m2, sp + 12, sp + 16, sp + 8);
    Widen(m, m1, m2, sp, sp + 12, sp + 12, sp + 16);
    LoadFrame(m2, ram[..], sp + 16, sp + 20, sp);
    LoadFrame(m2, ram[..], sp + 16, sp + 20, sp + 4);
    LoadFrame(m2, ram[..], sp + 16, sp + 20, sp + 8);
    LoadFrame(m2, ram[..], sp + 16, sp + 20, sp + 12);
    Widen(m, m2, ram[..], sp, sp + 16, sp + 16, sp + 20);
  }

  /** A store into part of a payload keeps the heap. */
  lemma StoreInPlace(m: seq<byte>, n: seq<byte>, heap: seq<Block>, p: nat, size: nat, a: nat, k: nat, lo: nat, hi: nat)
    requires Tiles(heap, lo, hi) && Stored(m, heap) && InPayload(heap, p, size) && p <= a && a + k <= p + size
    requires SameOutside(m, n, a, a + k)
    ensures Stored(n, heap)
  {
    hide Stored, Tiles, InPayload, SameOutside;
    Sub(heap, p, size, a, k);
    PayloadStored(m, n, heap, a, k, lo, hi);
  }

  lemma RecordApart(m: seq<byte>, n: seq<byte>, t: Task, next: nat, a: nat, k: nat)
    requires RecordAt(m, t, next) && SameOutside(m, n, a, a + k) && Disjoint(t.addr, TASK_SIZE, a, k)
    ensures RecordAt(n, t, next)
  {
    hide RecordAt;
    assert t.addr + TASK_SIZE <= |m| by { RecordSize(m, t, next); }
    RecordFrame(m, n, t, next);
  }

  lemma RecordSize(m: seq<byte>, t: Task, next: nat)
    requires RecordAt(m, t, next)
    ensures t.addr + TASK_SIZE <= |m| && Load(m, t.addr + 20) == next
  {
  }

  lemma Untouched(m: seq<byte>, m3: seq<byte>, m4: seq<byte>, n: seq<byte>, heap: seq<Block>, t: Task, c: nat)
    requires SameOutside(m, m3, t.esp, t.esp + FRAME_SIZE) && SameOutside(m3, m4, t.addr, t.addr + TASK_SIZE)
    requires SameOutside(m4, n, c + 20, c + 24)
    ensures OnlyTouched(m, n, heap, t, c)
  {
  }

  lemma HeadersUntouched(m: seq<byte>, m2: seq<byte>, n: seq<byte>, heap: seq<Block>, t: Task, c: nat)
    requires OnlyHeaders(m, m2, heap) && OnlyTouched(m2, n, heap, t, c)
    ensures OnlyTouched(m, n, heap, t, c)
  {
  }

  /** The stores of `task_create`: frame, record, link. */
  method StoreTask(ram: array<byte>, currentTask: nat, t: nat, stack: nat, entry: nat, pid: nat, trampoline: nat,
                   ghost cur: Task, ghost next: nat, ghost task: Task, ghost heap: seq<Block>,
                   ghost lo: nat, ghost hi: nat)
    requires Room(heap, cur.addr, task, lo, hi) && hi <= ram.Length <= WORD && currentTask == cur.addr
    requires Stored(ram[..], heap) && RecordAt(ram[..], cur, next)
    requires task == Task(t, stack + TASK_STACK_SIZE - FRAME_SIZE, stack, entry, pid, Ready)
    requires entry < WORD && pid < WORD && trampoline < WORD
    modifies ram
    ensures Stored(ram[..], heap) && RecordAt(ram[..], task, next) && RecordAt(ram[..], cur, t)
    ensures InitialFrame(ram[..], task.esp, trampoline)
    ensures OnlyTouched(old(ram[..]), ram[..], heap, task, currentTask)
  {
    hide Load, Word, Stored, Tiles, RecordAt, InPayload, InitialFrame, SameOutside, OnlyTouched;
    ghost var m2 := ram[..];
    var sp := stack + TASK_STACK_SIZE - FRAME_SIZE;
    WriteFrame(ram, sp, trampoline);
    ghost var m3 := ram[..];
    StoreInPlace(m2, m3, heap, stack, TASK_STACK_SIZE, sp, FRAME_SIZE, lo, hi);
    RecordApart(m2, m3, cur, next, sp, FRAME_SIZE);
    RecordSize(m3, cur, next);
    WriteRecord(ram, task, t, sp, stack, entry, pid, Code(Ready), Word(ram, currentTask + 20));
    ghost var m4 := ram[..];
    StoreInPlace(m3, m4, heap, t, TASK_SIZE, t, TASK_SIZE, lo, hi);
    FrameKept(m3, m4, sp, trampoline, t, TASK_SIZE);
    RecordApart(m3, m4, cur, next, t, TASK_SIZE);
    Store(ram, currentTask + 20, t);
    StoreInPlace(m4, ram[..], heap, currentTask, TASK_SIZE, currentTask + 20, 4, lo, hi);
    FrameKept(m4, ram[..], sp, trampoline, currentTask + 20, 4);
    RecordApart(m4, ram[..], task, next, currentTask + 20, 4);
    LinkRecord(m4, ram[..], cur, next, t);
    Untouched(m2, m3, m4, ram[..], heap, task, currentTask);
  }

  lemma BootFacts(heap: seq<Block>, lo: nat, hi: nat)
    requires WellFormed(heap, lo, hi) && Kmalloc(heap, TASK_SIZE).1 != 0
    ensures var (h, t) := Kmalloc(heap, TASK_SIZE);
      Tiles(h, lo, hi) && InPayload(h, t, TASK_SIZE) && t + TASK_SIZE <= hi
  {
    hide Kmalloc;
    KmallocFresh(heap, TASK_SIZE, lo, hi);
    OwnsInPayload(Kmalloc(heap, TASK_SIZE).0, Kmalloc(heap, TASK_SIZE).1, TASK_SIZE);
  }

  lemma BootStored(m: seq<byte>, n: seq<byte>, heap: seq<Block>, t: Task, lo: nat, hi: nat)
    requires Tiles(heap, lo, hi) && Stored(m, heap) && InPayload(heap, t.addr, TASK_SIZE)
    requires SameOutside(m, n, t.addr, t.addr + TASK_SIZE) && RecordAt(n, t, t.addr)
    ensures Stored(n, heap) && RingStored(n, [t])
  {
    hide Stored, Tiles, RecordAt, InPayload, SameOutside;
    PayloadStored(m, n, heap, t.addr, TASK_SIZE, lo, hi);
  }

  class Tasking {
    const heap: Heap
    var currentTask: nat
    var zombie: nat
    var nextPid: nat
    var taskingReady: bool
    var tickCounter: nat
    var taskingPaused: bool
    ghost var ring: seq<Task>
    ghost var reaped: seq<nat>

    ghost function Abs(): Kernel
      reads this, heap
    {
      Kernel(ring, zombie, nextPid, tickCounter, taskingPaused, heap.blocks, reaped)
    }

    /** The memory holds the ring, and the heap memory is owned as it should be. */
    ghost predicate Holds()
      reads this, heap, heap.ram
    {
      && heap.Valid() && taskingReady && nextPid <= MAX_PID
      && ring != [] && currentTask == ring[0].addr
      && RingStored(heap.ram[..], ring)
      && MemoryInv(Abs(), heap.heapBaseAddr, heap.Limit())
    }

    ghost predicate Valid()
      reads this, heap, heap.ram
    {
      Holds() && RingInv(Abs())
    }

    /** Inside `task_exit`: the current task is marked finished. */
    ghost predicate ValidExiting()
      reads this, heap, heap.ram
    {
      Holds() && Exiting(Abs())
    }

    /** The globals before `tasking_init`. */
    constructor (heap: Heap)
      requires heap.Valid()
      ensures this.heap == heap && !taskingReady && heap.Valid()
      ensures nextPid == zombie == tickCounter == 0 && !taskingPaused && reaped == []
    {
      this.heap := heap;
      currentTask, zombie, nextPid, tickCounter, taskingReady, taskingPaused := 0, 0, 0, 0, false, false;
      ring, reaped := [], [];
    }

    /** `tasking_init`: the running flow of control becomes task 0. The code does not test the
        pointer, so the heap must have room for the record. */
    method Init()
      requires heap.Valid() && !taskingReady && nextPid == zombie == tickCounter == 0 && !taskingPaused && reaped == []
      requires Kmalloc(heap.blocks, TASK_SIZE).1 != 0
      modifies this, heap`blocks, heap.ram
      ensures Valid()
      ensures var (h, t) := Kmalloc(old(heap.blocks), TASK_SIZE); Abs() == Boot(h, t)
    {
      hide RingStored, Stored, WellFormed, Tiles, RecordAt, Kmalloc, Inv, RingInv, MemoryInv, OwnsBlock, Stale,
        OnlyHeaders;
      ghost var lo, hi, bs := heap.heapBaseAddr, heap.Limit(), heap.blocks;
      BootInv(bs, lo, hi);
      BootFacts(bs, lo, hi);
      var t := heap.Kmalloc(TASK_SIZE);
      ghost var m, task := heap.ram[..], Boot(heap.blocks, t).ring[0];
      WriteRecord(heap.ram, task, t, 0, 0, 0, nextPid, Code(Running), t);
      BootStored(m, heap.ram[..], heap.blocks, task, lo, hi);
      nextPid := nextPid + 1;
      currentTask, taskingReady := t, true;
      ring := [task];
      InvParts(Abs(), lo, hi);
    }

    method SetPaused(paused: bool)
      requires Valid()
      modifies this`taskingPaused
      ensures Valid() && Abs() == old(Abs()).(paused := paused)
    {
      hide RingStored, RecordAt, MemoryInv, Stored, WellFormed, Tiles, Load;
      ghost var k := Abs();
      taskingPaused := paused;
      SameRing(k, Abs());
      SameMemory(k, Abs(), heap.heapBaseAddr, heap.Limit());
    }

    /** The first part of `schedule`. */
    method ReapZombie()
      requires Holds() && Shape(Abs()) && Reaps(Abs())
      modifies this, heap`blocks, heap.ram
      ensures Holds() && Abs() == Reap(old(Abs()))
      ensures OnlyKernelData(old(heap.ram[..]), heap.ram[..], old(heap.blocks), [])
      ensures forall x :: InHeader(heap.blocks, x) ==> InHeader(old(heap.blocks), x)
    {
      hide Load, Word, RingStored, MemoryInv, Stored, WellFormed, Tiles, Kfree, Freeable, OnlyHeaders, RecordAt;
      if zombie == 0 { return; }
      ghost var k, lo, hi, m := Abs(), heap.heapBaseAddr, heap.Limit(), heap.ram[..];
      ghost var z := IndexOf(ring, zombie);
      ReapSteps(k, lo, hi);
      RecordReads(m, ring, z);
      var stackBase := Word(heap.ram, zombie + 4);
      FreeNull(k.heap, m);
      if stackBase != 0 { heap.Kfree(stackBase); }
      ghost var m1 := heap.ram[..];
      heap.Kfree(zombie);
      ReapKeepsRing(k, m, m1, heap.ram[..], stackBase, zombie, lo, hi);
      ReapMemory(k, lo, hi);
      zombie := 0;
      reaped := reaped + [ring[z].pid];
    }

    /** The second part of `schedule`, up to the call of `switch_to`. */
    method DispatchNext() returns (switched: bool, oldEsp: nat, newEsp: nat)
      requires Holds()
      modifies this, heap.ram
      ensures Holds() && Abs() == Dispatch(old(Abs()))
      ensures switched == (Pick(old(ring), 1) != 0)
      ensures switched ==> oldEsp == old(ring)[0].addr && newEsp == ring[0].esp
      ensures OnlyKernelData(old(heap.ram[..]), heap.ram[..], heap.blocks, old(ring))
    {
      hide Load, Word, RingStored, Walkable, Stored, WellFormed, Tiles, RecordAt, Dispatch, InPayload, InHeader,
        InRecord, Apart, MemoryInv;
      ghost var k, lo, hi := Abs(), heap.heapBaseAddr, heap.Limit();
      MemoryFacts(k, lo, hi);
      var prev := currentTask;
      StoredWalkable(heap.ram[..], ring);
      FirstApart(ring);
      var next := FindNext(heap.ram, prev, ring);
      ghost var i := Pick(ring, 1);
      DifferentTask(ring, i);
      switched, oldEsp, newEsp := next != prev, prev, 0;
      if next == prev {
        NoDispatch(k);
        return;
      }
      HandOver(prev, next, i);
      RecordReads(heap.ram[..], ring, 0);
      newEsp := Word(heap.ram, next);
    }

    /** The assignments of `schedule` once it has found another task, at place `i` of the ring. */
    method HandOver(prev: nat, next: nat, ghost i: nat)
      requires Holds() && i == Pick(ring, 1) != 0 && prev == ring[0].addr && next == ring[i].addr
      modifies this, heap.ram
      ensures Holds() && Abs() == Dispatch(old(Abs())) && currentTask == next
      ensures OnlyKernelData(old(heap.ram[..]), heap.ram[..], heap.blocks, old(ring))
    {
      hide Load, Word, RingStored, Stored, WellFormed, Tiles, RecordAt, Dispatch, InPayload, InHeader, InRecord,
        Apart, MemoryInv, Pick;
      ghost var k, lo, hi := Abs(), heap.heapBaseAddr, heap.Limit();
      MemoryFacts(k, lo, hi);
      DispatchBySteps(k);
      RecordReads(heap.ram[..], ring, 0);
      ghost var r := ring;
      if Word(heap.ram, prev + 16) == Code(Terminated) {
        zombie := prev;
      } else if Word(heap.ram, prev + 16) == Code(Running) {
        SetState(heap.ram, prev, Ready, ring, 0, heap.blocks, lo, hi);
        r := ring[0 := ring[0].(state := Ready)];
      }
      ApartSame(ring, r);
      SetState(heap.ram, next, Running, r, i, heap.blocks, lo, hi);
      RotateStored(heap.ram[..], r[i := r[i].(state := Running)], i);
      currentTask := next;
      DispatchMemory(k, lo, hi);
      ring := Dispatch(k).ring;
    }

    /** `schedule`, up to the call of `switch_to`: whether it is made, and its two arguments. */
    method Schedule() returns (switched: bool, oldEsp: nat, newEsp: nat)
      requires if taskingReady then Valid() || ValidExiting() else heap.Valid()
      modifies this, heap`blocks, heap.ram
      ensures taskingReady == old(taskingReady) && heap.Valid()
      ensures !taskingReady ==> !switched && Abs() == old(Abs()) && heap.ram[..] == old(heap.ram[..])
      ensures taskingReady ==> Valid() && Abs() == Scheduler.Schedule(old(Abs()))
      ensures taskingReady ==> switched == (Pick(old(ring), 1) != 0)
      ensures switched ==> oldEsp == old(ring)[0].addr && newEsp == ring[0].esp
      ensures OnlyKernelData(old(heap.ram[..]), heap.ram[..], old(heap.blocks), old(ring))
    {
      hide OnlyKernelData, Shape, Reaps, Waiting, Reap, Dispatch, MemoryInv, RingStored, Stored, WellFormed, InHeader;
      ghost var k, m := Abs(), heap.ram[..];
      if !taskingReady {
        NothingChanged(m, heap.blocks, ring);
        return false, 0, 0;
      }
      ScheduleRing(k);
      ReapRing(k);
      ReapZombie();
      ghost var m1, cs := heap.ram[..], heap.blocks;
      switched, oldEsp, newEsp := DispatchNext();
      TwoParts(m, m1, heap.ram[..], k.heap, cs, k.ring);
    }

    /** `task_exit`; the call of `schedule` inside it does not return to this task. */
    method TaskExit() returns (oldEsp: nat, newEsp: nat)
      requires Valid() && ring[0].pid != 0
      modifies this, heap`blocks, heap.ram
      ensures Valid() && Abs() == Scheduler.TaskExit(old(Abs()))
      ensures oldEsp == old(ring)[0].addr && newEsp == ring[0].esp
      ensures OnlyKernelData(old(heap.ram[..]), heap.ram[..], old(heap.blocks), old(ring))
    {
      hide OnlyKernelData, RingStored, Stored, Tiles, InHeader, InRecord, InPayload, RecordAt, Load, Word, Apart,
        Scheduler.Schedule, MemoryInv, Shape, Reaps, Waiting, WellFormed;
      ghost var k, lo, hi, m := Abs(), heap.heapBaseAddr, heap.Limit(), heap.ram[..];
      MemoryFacts(k, lo, hi);
      RecordReads(m, ring, 0);
      SetState(heap.ram, currentTask, Terminated, ring, 0, heap.blocks, lo, hi);
      ghost var m1 := heap.ram[..];
      ring := ring[0 := ring[0].(state := Terminated)];
      ExitRing(k);
      ExitMemory(k, lo, hi);
      ExitSwitches(k, lo, hi);
      var switched;
      switched, oldEsp, newEsp := Schedule();
      ApartSame(k.ring, k.ring[0 := k.ring[0].(state := Terminated)]);
      SameKernelData(m, m1, heap.ram[..], k.heap, k.ring, k.ring[0 := k.ring[0].(state := Terminated)]);
    }

    /** Called on every timer tick. */
    method TaskingTick() returns (switched: bool, oldEsp: nat, newEsp: nat)
      requires if taskingReady then Valid() else heap.Valid()
      modifies this, heap`blocks, heap.ram
      ensures taskingReady == old(taskingReady)
      ensures !taskingReady ==> !switched && Abs() == old(Abs()) && heap.ram[..] == old(heap.ram[..])
      ensures taskingReady ==> Valid() && Abs() == Scheduler.TaskingTick(old(Abs()))
      ensures switched == (taskingReady && old(!taskingPaused && tickCounter >= 4 && Pick(ring, 1) != 0))
      ensures switched ==> oldEsp == old(ring)[0].addr && newEsp == ring[0].esp
      ensures OnlyKernelData(old(heap.ram[..]), heap.ram[..], old(heap.blocks), old(ring))
    {
      hide RingStored, Stored, WellFormed, Scheduler.Schedule, MemoryInv, Shape, Reaps, States, OnlyKernelData,
        Exiting;
      ghost var k, lo, hi := Abs(), heap.heapBaseAddr, heap.Limit();
      NothingChanged(heap.ram[..], heap.blocks, ring);
      if !taskingReady || taskingPaused { return false, 0, 0; }
      TicksBelow(k);
      tickCounter := tickCounter + 1;
      ghost var t := if tickCounter >= QUANTUM then 0 else tickCounter;
      SameRing(k, k.(ticks := t));
      SameMemory(k, k.(ticks := t), lo, hi);
      if tickCounter >= QUANTUM {
        tickCounter := 0;
        switched, oldEsp, newEsp := Schedule();
      } else {
        switched, oldEsp, newEsp := false, 0, 0;
      }
    }

    /** `task_create`. `trampoline` is the address of `task_trampoline`. The heap stays whole in any
        case; the ring does when no freed record is handed out again. */
    method TaskCreate(entry: nat, trampoline: nat) returns (pid: int)
      requires Valid() && entry < WORD && trampoline < WORD && nextPid < MAX_PID
      modifies this, heap`blocks, heap.ram
      ensures heap.Valid() && taskingReady && (Abs(), pid) == Scheduler.TaskCreate(old(Abs()), entry)
      ensures pid != -1 ==> Created(old(heap.ram[..]), heap.ram[..], old(Abs()), entry, trampoline)
      ensures pid == -1 ==> Failed(old(heap.ram[..]), heap.ram[..], old(heap.blocks))
      ensures pid == -1 ==> OnlyHeaders(old(heap.ram[..]), heap.ram[..], Kmalloc(old(heap.blocks), TASK_SIZE).0)
      ensures Legal(old(Abs()), Create(entry)) ==> Valid()
    {
      hide Load, Word, RingStored, Stored, WellFormed, RecordAt, InHeader, Kmalloc, Kfree, RingInv, MemoryInv,
        OnlyHeaders, Freeable, Legal;
      ghost var k, lo, hi, m := Abs(), heap.heapBaseAddr, heap.Limit(), heap.ram[..];
      var t := heap.Kmalloc(TASK_SIZE);
      ghost var h1, m1 := heap.blocks, heap.ram[..];
      if t == 0 {
        FailedCreate(k, entry, m, m1, m1, t, lo, hi);
        return -1;
      }
      SecondFails(k.heap, lo, hi);
      var stack := heap.Kmalloc(TASK_STACK_SIZE);
      ghost var m2 := heap.ram[..];
      if stack == 0 {
        heap.Kfree(t);
        FailedCreate(k, entry, m, m1, heap.ram[..], t, lo, hi);
        return -1;
      }
      TwoHeaders(m, m1, m2, h1, TASK_STACK_SIZE);
      pid := Link(k, t, stack, entry, trampoline, m);
      CreatedValid(m, heap.ram[..], k, entry, trampoline, lo, hi);
    }

    /** The rest of `task_create`, once both allocations have succeeded. */
    method Link(ghost k: Kernel, t: nat, stack: nat, entry: nat, trampoline: nat, ghost m: seq<byte>)
      returns (pid: int)
      requires heap.Valid() && taskingReady && nextPid < MAX_PID && entry < WORD && trampoline < WORD && k.ring != []
      requires Abs() == k.(heap := heap.blocks) && currentTask == k.ring[0].addr
      requires Inv(k, heap.heapBaseAddr, heap.Limit()) && RingStored(m, k.ring)
      requires var (h1, a) := Kmalloc(k.heap, TASK_SIZE); var (h2, b) := Kmalloc(h1, TASK_STACK_SIZE);
        t == a != 0 && stack == b != 0 && heap.blocks == h2
      requires |m| == heap.ram.Length && OnlyHeaders(m, heap.ram[..], heap.blocks)
      modifies this`nextPid, this`ring, heap.ram
      ensures heap.Valid() && nextPid <= MAX_PID && (Abs(), pid) == Scheduler.TaskCreate(k, entry) && pid != -1
      ensures Created(m, heap.ram[..], k, entry, trampoline)
    {
      hide RingStored, Stored, WellFormed, Tiles, RecordAt, InHeader, Kmalloc, Kfree, Inv, OnlyHeaders, InitialFrame,
        OnlyTouched, Room, NextTask;
      ghost var lo, hi, m2 := heap.heapBaseAddr, heap.Limit(), heap.ram[..];
      ghost var r, cur, next := Scheduler.TaskCreate(k, entry).0, k.ring[0], NextTask(k.ring, 0);
      CreateRoom(k, entry, lo, hi);
      CurrentKept(m, m2, k, heap.blocks, r.ring[1], lo, hi);
      StoreTask(heap.ram, currentTask, t, stack, entry, nextPid, trampoline, cur, next, r.ring[1], heap.blocks, lo, hi);
      HeadersUntouched(m, m2, heap.ram[..], heap.blocks, r.ring[1], cur.addr);
      pid := nextPid;
      nextPid := nextPid + 1;
      ring := r.ring;
    }
  }

  /** The headers that the allocations write miss the current task's record. */
  lemma CurrentKept(m: seq<byte>, n: seq<byte>, k: Kernel, heap: seq<Block>, t: Task, lo: nat, hi: nat)
    requires k.ring != [] && RingStored(m, k.ring) && hi <= |m| && OnlyHeaders(m, n, heap)
    requires Room(heap, k.ring[0].addr, t, lo, hi)
    ensures RecordAt(n, k.ring[0], NextTask(k.ring, 0))
  {
    hide Tiles, OnlyHeaders, InPayload, SameBytes, RecordAt, NextTask;
    assert RecordAt(m, k.ring[0], NextTask(k.ring, 0));
    PayloadBytes(m, n, heap, k.ring[0].addr, TASK_SIZE, lo, hi);
    RecordFrame(m, n, k.ring[0], NextTask(k.ring, 0));
  }

  lemma CreatedValid(m: seq<byte>, n: seq<byte>, k: Kernel, entry: nat, trampoline: nat, lo: nat, hi: nat)
    requires Inv(k, lo, hi) && TaskCreate(k, entry).1 != -1 && hi <= |m|
    requires RingStored(m, k.ring) && Created(m, n, k, entry, trampoline)
    ensures Legal(k, Create(entry)) ==>
      var r := TaskCreate(k, entry).0;
      RingStored(n, r.ring) && RingInv(r) && MemoryInv(r, lo, hi) && r.ring[0] == k.ring[0]
  {
    hide Kmalloc, Kfree, RingStored, Created, Legal, Inv;
    InvParts(k, lo, hi);
    if Legal(k, Create(entry)) {
      CreatedRing(m, n, k, entry, trampoline, lo, hi);
      CreateInv(k, entry, lo, hi);
      InvParts(TaskCreate(k, entry).0, lo, hi);
    }
  }

  /** A `task_create` that fails changes headers of the list after the first allocation only. */
  lemma FailedCreate(k: Kernel, entry: nat, m: seq<byte>, m1: seq<byte>, n: seq<byte>, t: nat, lo: nat, hi: nat)
    requires Inv(k, lo, hi) && TaskCreate(k, entry).1 == -1 && hi <= |m| && RingStored(m, k.ring)
    requires var h1 := Kmalloc(k.heap, TASK_SIZE).0;
      && t == Kmalloc(k.heap, TASK_SIZE).1 && OnlyHeaders(m, m1, h1) && Stored(m1, h1)
      && if t == 0 then n == m1 else OnlyHeaders(m1, n, h1) && OnlyFreed(m1, n, k.heap, t)
    ensures TaskCreate(k, entry).0 == k && OnlyHeaders(m, n, Kmalloc(k.heap, TASK_SIZE).0)
    ensures Failed(m, n, k.heap)
    ensures Legal(k, Create(entry)) ==> RingStored(n, k.ring)
  {
    hide Kmalloc, Kfree, RingStored, RingInv, InHeader, Tiles, Stored;
    InvParts(k, lo, hi);
    CreateAllOrNothing(k, entry, lo, hi);
    if t != 0 { FreedIsHeader(m1, n, k.heap, TASK_SIZE); }
    assert Carved(m, m1, n, k.heap);
    if Legal(k, Create(entry)) {
      FirstAllocPayloads(k, entry, lo, hi);
      HeadersKeepRing(m, n, Kmalloc(k.heap, TASK_SIZE).0, k.ring, lo, hi);
    }
  }
}
