/** A run after `tasking_init` at the end of which a `task_create` that fails, and so hands out no
    memory at all, wakes a dead task. */
module FailingCreate {
  import opened Bits
  import opened Memory
  import opened HeapSpec
  import opened HeapLaws
  import HeapRuns
  import opened HeapOwners
  import opened Heap
  import opened Scheduler
  import opened SchedulerLaws
  import opened SchedulerMemory
  import opened TaskRecords
  import opened TaskCreation
  import opened FreedRecords
  import opened RecordReuse
  import opened ReuseInputs

  // ----- Runs by their operations -----

  /** `r` is the kernel after running `ops` from `k`, each of them legal. */
  ghost predicate Leads(k: Kernel, ops: seq<Op>, r: Kernel)
    decreases |ops|
  {
    if ops == [] then r == k
    else
      var last := ops[|ops| - 1];
      exists prev: Kernel ::
        Leads(k, ops[..|ops| - 1], prev) && prev.ring != [] && Legal(prev, last) && r == Step(prev, last)
  }

  lemma Then(k: Kernel, ops: seq<Op>, prev: Kernel, op: Op)
    requires Leads(k, ops, prev) && prev.ring != [] && Legal(prev, op)
    ensures Leads(k, ops + [op], Step(prev, op))
  {
    hide Legal, Step;
    assert (ops + [op])[..|ops|] == ops && (ops + [op])[|ops|] == op;
  }

  lemma {:induction false} LeadsInv(k: Kernel, ops: seq<Op>, r: Kernel, lo: nat, hi: nat)
    requires Inv(k, lo, hi) && Leads(k, ops, r)
    ensures Inv(r, lo, hi)
    decreases |ops|
  {
    hide Inv, NoReuse, Step;
    if ops != [] {
      var last := ops[|ops| - 1];
      var prev :| Leads(k, ops[..|ops| - 1], prev) && prev.ring != [] && Legal(prev, last) && r == Step(prev, last);
      LeadsInv(k, ops[..|ops| - 1], prev, lo, hi);
      StepInv(prev, last, lo, hi);
    }
  }

  // ----- The heap, block by block -----

  const LAST: nat := REST - 8352

  /** The record of task 0. */
  function First(lo: nat): Block { Block(lo, 24, false) }

  /** `x1`, in use or free. */
  function X1(lo: nat, free: bool): Block { Block(lo + 36, 40, free) }

  /** The eight bytes that keep record and stack of the task apart. */
  function Eight(lo: nat): Block { Block(lo + 164, 8, false) }

  function Stack(lo: nat, free: bool): Block { Block(lo + 184, TASK_STACK_SIZE, free) }

  function Last(lo: nat, free: bool): Block { Block(lo + 8388, LAST, free) }

  /** After the first three requests, `x2` being in use or free. */
  function Heap3(lo: nat, free: bool): seq<Block> {
    [First(lo), X1(lo, false), Block(lo + 88, 64, free), Eight(lo), Block(lo + 184, REST - 148, true)]
  }

  /** With the task in place. */
  function Heap5(lo: nat, x1: bool, last: bool): seq<Block> {
    [First(lo), X1(lo, x1), Block(lo + 88, 24, false), Block(lo
      + 124, 28, true), Eight(lo), Stack(lo, false), Last(lo, last)]
  }

  /** After the task has been freed; its stack is free or handed out again. */
  function Heap8(lo: nat, stack: bool): seq<Block> {
    [First(lo), Block(lo + 36, 116, true), Eight(lo), Stack(lo, stack), Last(lo, false)]
  }

  function Heap10(lo: nat): seq<Block> {
    [First(lo), Block(lo + 36, 24, false), Block(lo + 72, 80, true), Eight(lo), Stack(lo, false), Last(lo, false)]
  }

  /** The task that comes and goes. */
  function Dead(lo: nat, entry: nat): Task {
    Task(lo + 100, lo + 196 + TASK_STACK_SIZE - FRAME_SIZE, lo + 196, entry, 1, Ready)
  }

  function With(lo: nat, heap: seq<Block>): Kernel {
    Start(lo).(heap := heap)
  }

  // ----- The run -----

  lemma ThreeRequests(lo: nat)
    ensures Leads(Start(lo), [Malloc(40), Malloc(64), Malloc(8)], With(lo, Heap3(lo, false)))
  {
    hide AlignUp, Kmalloc, Leads;
    Rounded(40);
    Rounded(64);
    Rounded(8);
    var a, b, c := First(lo), X1(lo, false), Block(lo + 88, 64, false);
    var r0, r1, r2 := Block(lo + 36, REST, true), Block(lo + 88, REST - 52, true), Block(lo + 164, REST - 128, true);
    KmallocFirst([a], r0, [], 40);
    assert [a] + [r0] + [] == BootHeap(lo) && [a] + [b, r1] + [] == [a, b] + [r1] + [];
    KmallocFirst([a, b], r1, [], 64);
    assert [a, b] + [c, r2] + [] == [a, b, c] + [r2] + [];
    KmallocFirst([a, b, c], r2, [], 8);
    assert [a, b, c] + [Eight(lo), Heap3(lo, false)[4]] + [] == Heap3(lo, false);
    LeadsNowhere(Start(lo));
    assert With(lo, BootHeap(lo)) == Start(lo);
    MallocStep(lo, [], BootHeap(lo), 40);
    MallocStep(lo, [] + [Malloc(40)], [a, b] + [r1] + [], 64);
    MallocStep(lo, [] + [Malloc(40)] + [Malloc(64)], [a, b, c] + [r2] + [], 8);
    assert [] + [Malloc(40)] + [Malloc(64)] + [Malloc(8)] == [Malloc(40), Malloc(64), Malloc(8)];
  }

  lemma LeadsNowhere(k: Kernel)
    ensures Leads(k, [], k)
  {
  }

  lemma MallocStep(lo: nat, ops: seq<Op>, heap: seq<Block>, n: nat)
    requires Leads(Start(lo), ops, With(lo, heap)) && n < WORD
    ensures Leads(Start(lo), ops + [Malloc(n)], With(lo, Kmalloc(heap, n).0))
  {
    hide Kmalloc, Leads, NoReuse;
    NothingFreed(With(lo, heap), Kmalloc(heap, n).0);
    Then(Start(lo), ops, With(lo, heap), Malloc(n));
  }

  lemma SecondFreed(lo: nat)
    requires lo % 4 == 0
    ensures Leads(Start(lo), [Malloc(40), Malloc(64), Malloc(8), Op.Free(lo + 100)], With(lo, Heap3(lo, true)))
  {
    hide Leads, Inv, Kfree, Kmalloc;
    var ops, k := [Malloc(40), Malloc(64), Malloc(8)], With(lo, Heap3(lo, false));
    ThreeRequests(lo);
    StartIs(lo);
    LeadsInv(Start(lo), ops, k, lo, lo + HEAP_SIZE);
    InvParts(k, lo, lo + HEAP_SIZE);
    FreeNoMerge(k.heap, 2, lo, lo + HEAP_SIZE);
    assert k.heap[2 := Block(lo + 88, 64, true)] == Heap3(lo, true);
    assert k.heap[2] in Live(k.heap);
    Then(Start(lo), ops, k, Op.Free(lo + 100));
    assert ops + [Op.Free(lo + 100)] == [Malloc(40), Malloc(64), Malloc(8), Op.Free(lo + 100)];
  }

  /** The record goes into the hole, the stack behind the eight bytes. */
  lemma CreateInHole(lo: nat, entry: nat)
    ensures var k := With(lo, Heap3(lo, true)); var r := TaskCreate(k, entry);
      r == (k.(ring := [Task0(lo), Dead(lo, entry)], nextPid := 2, heap := Heap5(lo, false, true)), 1)
  {
    hide AlignUp, Kmalloc, Kfree;
    Rounded(TASK_SIZE);
    Rounded(TASK_STACK_SIZE);
    var h, g := Heap3(lo, true), Heap5(lo, false, true);
    KmallocFirst([h[0], h[1]], h[2], [h[3], h[4]], TASK_SIZE);
    assert [h[0], h[1]] + [h[2]] + [h[3], h[4]] == h;
    assert [h[0], h[1]] + [g[2], g[3]] + [h[3], h[4]] == [g[0], g[1], g[2], g[3], g[4]] + [h[4]] + [];
    KmallocFirst([g[0], g[1], g[2], g[3], g[4]], h[4], [], TASK_STACK_SIZE);
    assert [g[0], g[1], g[2], g[3], g[4]] + [g[5], g[6]] + [] == g;
    assert Kmalloc(Kmalloc(h, TASK_SIZE).0, TASK_STACK_SIZE) == (g, lo + 196);
    assert [Task0(lo), Dead(lo, entry)] + [Task0(lo)][1..] == [Task0(lo), Dead(lo, entry)];
  }

  function Waiting2(lo: nat, entry: nat, heap: seq<Block>): Kernel {
    With(lo, heap).(ring := [Task0(lo), Dead(lo, entry)], nextPid := 2)
  }

  function SetUp(lo: nat, entry: nat): seq<Op> {
    [Malloc(40), Malloc(64), Malloc(8), Op.Free(lo + 100), Create(entry), Malloc(LAST), Op.Free(lo + 48)]
  }

  lemma TaskSetUp(lo: nat, entry: nat)
    requires lo % 4 == 0 && entry < WORD
    ensures Leads(Start(lo), SetUp(lo, entry), Waiting2(lo, entry, Heap5(lo, true, false)))
  {
    hide Leads, Inv, Kfree, Kmalloc, AlignUp, NoReuse;
    var ops, k := [Malloc(40), Malloc(64), Malloc(8), Op.Free(lo + 100)], With(lo, Heap3(lo, true));
    SecondFreed(lo);
    CreateInHole(lo, entry);
    NothingFreed(k, Kmalloc(k.heap, TASK_SIZE).0);
    NothingFreed(k, Kmalloc(Kmalloc(k.heap, TASK_SIZE).0, TASK_STACK_SIZE).0);
    Then(Start(lo), ops, k, Create(entry));
    var k1 := Waiting2(lo, entry, Heap5(lo, false, true));
    NothingFreed(k1, Kmalloc(k1.heap, LAST).0);
    Then(Start(lo), ops + [Create(entry)], k1, Malloc(LAST));
    LastTaken(lo);
    var k2 := Waiting2(lo, entry, Heap5(lo, false, false));
    var ops2 := ops + [Create(entry)] + [Malloc(LAST)];
    FirstFreed(lo, entry, ops2);
    assert ops2 + [Op.Free(lo + 48)] == SetUp(lo, entry);
  }

  lemma LastTaken(lo: nat)
    ensures Kmalloc(Heap5(lo, false, true), LAST).0 == Heap5(lo, false, false)
  {
    hide AlignUp, Kmalloc;
    Rounded(LAST);
    var h := Heap5(lo, false, true);
    var xs := [h[0], h[1], h[2], h[3], h[4], h[5]];
    KmallocFirst(xs, h[6], [], LAST);
    assert xs + [h[6]] + [] == h && xs + [Last(lo, false)] + [] == Heap5(lo, false, false);
  }

  lemma FirstFreed(lo: nat, entry: nat, ops: seq<Op>)
    requires lo % 4 == 0 && Leads(Start(lo), ops, Waiting2(lo, entry, Heap5(lo, false, false)))
    ensures Leads(Start(lo), ops + [Op.Free(lo + 48)], Waiting2(lo, entry, Heap5(lo, true, false)))
  {
    hide Leads, Inv, Kfree, Legal, WellFormed, Live;
    var k := Waiting2(lo, entry, Heap5(lo, false, false));
    StartIs(lo);
    LeadsInv(Start(lo), ops, k, lo, lo + HEAP_SIZE);
    InvParts(k, lo, lo + HEAP_SIZE);
    FreeNoMerge(k.heap, 1, lo, lo + HEAP_SIZE);
    assert k.heap[1 := X1(lo, true)] == Heap5(lo, true, false);
    OtherBlockLegal(k, 1);
    Then(Start(lo), ops, k, Op.Free(lo + 48));
  }

  lemma OtherBlockLegal(k: Kernel, i: nat)
    requires k.ring != [] && i < |k.heap| && !k.heap[i].free
    requires forall t :: t in k.ring ==> t.addr != k.heap[i].Payload() && t.stackBase != k.heap[i].Payload()
    ensures Legal(k, Op.Free(k.heap[i].Payload()))
  {
    assert k.heap[i] in Live(k.heap);
  }

  /** Freeing stack and record of the task merges its record with `x1` and the rest of the hole. */
  lemma TaskFreed(lo: nat)
    requires lo % 4 == 0 && WellFormed(Heap5(lo, true, false), lo, lo + HEAP_SIZE)
    ensures Kfree(Kfree(Heap5(lo, true, false), lo + 196), lo + 100) == Heap8(lo, true)
  {
    hide Kfree, Tiles, Compact;
    var h, g, hi := Heap5(lo, true, false), Heap8(lo, true), lo + HEAP_SIZE;
    assert Live(h) == {h[0], h[2], h[4], h[5], h[6]};
    KfreeStep(h, h[5], lo, hi);
    KfreeStep(Kfree(h, lo + 196), h[2], lo, hi);
    Heap8Tiles(lo);
    assert Live(g) == {h[0], h[4], h[6]};
    Determined(Kfree(Kfree(h, lo + 196), lo + 100), g, lo, hi);
  }

  lemma Heap8Tiles(lo: nat)
    ensures Tiles(Heap8(lo, true), lo, lo + HEAP_SIZE) && Compact(Heap8(lo, true))
  {
    var g, hi := Heap8(lo, true), lo + HEAP_SIZE;
    hide Tiles;
    TilesOne(g[4]);
    TilesPrepend(g[3], [g[4]], hi);
    TilesPrepend(g[2], [g[3]] + [g[4]], hi);
    TilesPrepend(g[1], [g[2]] + ([g[3]] + [g[4]]), hi);
    TilesPrepend(g[0], [g[1]] + ([g[2]] + ([g[3]] + [g[4]])), hi);
    assert [g[0]] + ([g[1]] + ([g[2]] + ([g[3]] + [g[4]]))) == g;
  }

  /** The whole sequence: two requests more after the task has been freed. */
  function Ops(lo: nat, entry: nat): seq<Op> {
    SetUp(lo, entry) + [Yield, Exit, Yield, Malloc(TASK_STACK_SIZE), Malloc(TASK_SIZE)]
  }

  function Final(lo: nat, entry: nat): Kernel {
    ComeAndGo(Waiting2(lo, entry, Heap5(lo, true, false))).(heap := Heap10(lo))
  }

  /** A task that comes and goes is three calls. */
  lemma ThreeCalls(k: Kernel, ops: seq<Op>, r: Kernel, lo: nat, hi: nat)
    requires Leads(k, ops, r) && Inv(r, lo, hi) && r.zombie == 0 && |r.ring| >= 2
    requires r.ring[1].state.Ready? && r.ring[1].pid != 0
    ensures Leads(k, ops + [Yield, Exit, Yield], ComeAndGo(r))
  {
    hide Leads, Inv, Schedule, TaskExit;
    RunsNext(r);
    Then(k, ops, r, Yield);
    Then(k, ops + [Yield], Schedule(r), Exit);
    ExitNotEmpty(Schedule(r));
    Then(k, ops + [Yield] + [Exit], TaskExit(Schedule(r)), Yield);
    assert ops + [Yield] + [Exit] + [Yield] == ops + [Yield, Exit, Yield];
  }

  lemma AfterTask(lo: nat, entry: nat)
    requires lo % 4 == 0 && entry < WORD
    ensures var k, t := ComeAndGo(Waiting2(lo, entry, Heap5(lo, true, false))), Dead(lo, entry);
      && Leads(Start(lo), SetUp(lo, entry) + [Yield, Exit, Yield], k) && Inv(k, lo, lo + HEAP_SIZE)
      && k.heap == Heap8(lo, true) && k.ring == [Task0(lo), t.(state := Terminated)] && IsReaped(k, k.ring[1])
      && k.reaped == [1]
  {
    hide Leads, Inv, Kfree, ComeAndGo, WellFormed, Heap5, SetUp;
    var k, ops := Waiting2(lo, entry, Heap5(lo, true, false)), SetUp(lo, entry);
    TaskSetUp(lo, entry);
    StartIs(lo);
    LeadsInv(Start(lo), ops, k, lo, lo + HEAP_SIZE);
    InvParts(k, lo, lo + HEAP_SIZE);
    ThreeCalls(Start(lo), ops, k, lo, lo + HEAP_SIZE);
    RunAndReap(k, lo, lo + HEAP_SIZE);
    TaskFreed(lo);
    TwoTasks(k);
  }

  lemma ExitNotEmpty(k: Kernel)
    requires k.ring != []
    ensures TaskExit(k).ring != []
  {
    hide Kfree;
  }

  lemma TwoMore(lo: nat)
    ensures Kmalloc(Heap8(lo, true), TASK_STACK_SIZE) == (Heap8(lo, false), lo + 196)
    ensures Kmalloc(Heap8(lo, false), TASK_SIZE) == (Heap10(lo), lo + 48)
  {
    hide AlignUp, Kmalloc;
    Rounded(TASK_SIZE);
    Rounded(TASK_STACK_SIZE);
    var h, g, r := Heap8(lo, true), Heap8(lo, false), Heap10(lo);
    KmallocFirst([h[0], h[1], h[2]], h[3], [h[4]], TASK_STACK_SIZE);
    assert [h[0], h[1], h[2]] + [h[3]] + [h[4]] == h && [h[0], h[1], h[2]] + [g[3]] + [h[4]] == g;
    KmallocFirst([g[0]], g[1], [g[2], g[3], g[4]], TASK_SIZE);
    assert [g[0]] + [g[1]] + [g[2], g[3], g[4]] == g && [g[0]] + [r[1], r[2]] + [g[2], g[3], g[4]] == r;
  }

  /** The two requests take nothing of the freed record. */
  lemma FinalReached(lo: nat, entry: nat)
    requires lo % 4 == 0 && entry < WORD
    ensures var k, t := Final(lo, entry), Dead(lo, entry);
      && Leads(Start(lo), Ops(lo, entry), k) && Inv(k, lo, lo + HEAP_SIZE)
      && k.ring == [Task0(lo), t.(state := Terminated)] && IsReaped(k, k.ring[1])
  {
    hide Leads, Inv, Kmalloc, ComeAndGo;
    var k := ComeAndGo(Waiting2(lo, entry, Heap5(lo, true, false)));
    var ops := SetUp(lo, entry) + [Yield, Exit, Yield];
    AfterTask(lo, entry);
    TwoMore(lo);
    var k1 := k.(heap := Heap8(lo, false));
    DeadStale(k1, Heap8(lo, false), Heap8(lo, false)[1], lo, entry);
    Then(Start(lo), ops, k, Malloc(TASK_STACK_SIZE));
    DeadStale(k1, Heap10(lo), Heap10(lo)[2], lo, entry);
    Then(Start(lo), ops + [Malloc(TASK_STACK_SIZE)], k1, Malloc(TASK_SIZE));
    assert ops + [Malloc(TASK_STACK_SIZE)] + [Malloc(TASK_SIZE)] == Ops(lo, entry);
    StartIs(lo);
    LeadsInv(Start(lo), Ops(lo, entry), Final(lo, entry), lo, lo + HEAP_SIZE);
  }

  /** The freed record lies in the free block `b` of this heap. */
  lemma DeadStale(k: Kernel, heap: seq<Block>, b: Block, lo: nat, entry: nat)
    requires k.ring == [Task0(lo), Dead(lo, entry).(state := Terminated)] && k.reaped == [1]
    requires b in heap && b.free && b.Payload() <= lo + 100 && lo + 124 <= b.End()
    ensures NoReuse(k, heap)
  {
  }

  /** The record is carved out of the hole, then no block has room for the stack. */
  lemma CarvedThenFull(lo: nat)
    ensures Kmalloc(Heap10(lo), TASK_SIZE) == (Carving(lo), lo + 84)
    ensures Kmalloc(Carving(lo), TASK_STACK_SIZE).1 == 0
  {
    hide AlignUp, Kmalloc, FirstFit;
    Rounded(TASK_SIZE);
    var h, g := Heap10(lo), Carving(lo);
    KmallocFirst([h[0], h[1]], h[2], [h[3], h[4], h[5]], TASK_SIZE);
    assert [h[0], h[1]] + [h[2]] + [h[3], h[4], h[5]] == h;
    assert [h[0], h[1]] + [g[2], g[3]] + [h[3], h[4], h[5]] == g;
    KmallocNone(g, TASK_STACK_SIZE);
  }

  lemma CreateFails(k: Kernel, lo: nat, entry: nat)
    requires k.ring != [] && k.heap == Heap10(lo)
    ensures TaskCreate(k, entry).1 == -1
  {
    hide Kmalloc, Kfree;
    CarvedThenFull(lo);
  }

  /** The blocks between the two allocations. */
  function Carving(lo: nat): seq<Block> {
    [First(lo), Block(lo + 36, 24, false), Block(lo + 72, 24, false), Block(lo + 108, 44, true), Eight(lo),
     Stack(lo, false), Last(lo, false)]
  }

  /** The words of both records once the call has failed: the header at `lo + 108` is left over. */
  lemma WordsLeft(m: seq<byte>, m1: seq<byte>, n: seq<byte>, lo: nat)
    requires OnlyHeaders(m, m1, Carving(lo)) && Stored(m1, Carving(lo)) && OnlyHeaders(m1, n, Heap10(lo))
    requires lo + HEAP_SIZE <= |m|
    ensures |n| == |m| && Load(n, lo + 116) == lo + 164 && Load(n, lo + 120) == Load(m, lo + 120)
    ensures Load(n, lo + 28) == Load(m, lo + 28) && Load(n, lo + 32) == Load(m, lo + 32)
  {
    hide Load;
    var g := Carving(lo);
    assert HeaderAt(m1, g[3], NextAddr(g, 3));
    forall x | lo + 116 <= x < lo + 124 || lo + 28 <= x < lo + 36 ensures n[x] == m1[x] {
      assert !InHeader(Heap10(lo), x);
    }
    forall x | lo + 120 <= x < lo + 124 || lo + 28 <= x < lo + 36 ensures m1[x] == m[x] {
      assert !InHeader(g, x);
    }
    SameWords(m1, n, lo + 116);
    SameWords(m, n, lo + 120);
    SameWords(m, n, lo + 28);
    SameWords(m, n, lo + 32);
  }

  /** `tasking_init`; `x1 = kmalloc(40)`; `x2 = kmalloc(64)`; `kmalloc(8)`; `kfree(x2)`; `task_create`;
      `kmalloc` of all that is left at the end; `kfree(x1)`; the task comes and goes; `kmalloc(8192)`,
      which obtains its stack; `kmalloc(24)`. All this is legal and hands out no freed record. The
      `task_create` that follows returns -1 and leaves the heap list as it was, but the `state` word
      of the dead task now holds an address: `schedule` will run it next, on a stack that has been
      handed out. */
  lemma FailedCreateWakesDead(lo: nat, entry: nat, entry': nat, m: seq<byte>, n: seq<byte>)
    requires lo % 4 == 0 && entry < WORD && lo + HEAP_SIZE <= |m|
    requires var k := Final(lo, entry); RingStored(m, k.ring) && Failed(m, n, k.heap)
    ensures var k, t := Final(lo, entry), Dead(lo, entry);
      && Leads(Start(lo), Ops(lo, entry), k) && Inv(k, lo, lo + HEAP_SIZE)
      && k.ring == [Task0(lo), t.(state := Terminated)] && IsReaped(k, k.ring[1])
      && TaskCreate(k, entry').1 == -1 && TaskCreate(k, entry').0 == k
      && !Walkable(n, k.ring) && lo + 120 <= |n| && Load(n, t.addr + 16) == lo + 164
      && Walkable(n, [Task0(lo), t]) && Pick([Task0(lo), t], 1) == 1
      && OwnsBlock(k.heap, t.stackBase, TASK_STACK_SIZE)
  {
    hide Leads, Inv, Kmalloc, Kfree, RecordAt, RingStored, Walkable, Failed, Final, Heap10, Live;
    var k, t := Final(lo, entry), Dead(lo, entry);
    FinalReached(lo, entry);
    FinalHeap(lo, entry);
    InvParts(k, lo, lo + HEAP_SIZE);
    CreateFails(k, lo, entry');
    CreateAllOrNothing(k, entry', lo, lo + HEAP_SIZE);
    StoredWalkable(m, k.ring);
    WalkSpoiled(m, n, lo, entry);
  }

  lemma FinalHeap(lo: nat, entry: nat)
    ensures Final(lo, entry).heap == Heap10(lo) && OwnsBlock(Heap10(lo), Dead(lo, entry).stackBase, TASK_STACK_SIZE)
  {
    assert Heap10(lo)[4] in Live(Heap10(lo));
  }

  lemma WalkSpoiled(m: seq<byte>, n: seq<byte>, lo: nat, entry: nat)
    requires lo % 4 == 0 && lo + HEAP_SIZE <= |m| && Failed(m, n, Heap10(lo))
    requires Walkable(m, [Task0(lo), Dead(lo, entry).(state := Terminated)])
    ensures var t := Dead(lo, entry);
      && !Walkable(n, [Task0(lo), t.(state := Terminated)]) && Walkable(n, [Task0(lo), t])
      && lo + 120 <= |n| && Load(n, t.addr + 16) == lo + 164 && Pick([Task0(lo), t], 1) == 1
  {
    hide Kmalloc, Stored, OnlyHeaders, Load, Walkable, Heap10;
    var t := Dead(lo, entry);
    CarvedThenFull(lo);
    var m1 :| Carved(m, m1, n, Heap10(lo));
    WordsLeft(m, m1, n, lo);
    WalkPair(m, Task0(lo), t.(state := Terminated));
    WalkPair(n, Task0(lo), t.(state := Terminated));
    WalkPair(n, Task0(lo), t);
  }
}
