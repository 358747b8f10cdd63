/** Two short sequences of calls after `tasking_init` that spoil the ring through a freed record,
    although no allocation returns the address of a record. */
module ReuseInputs {
  import opened Bits
  import opened Memory
  import opened HeapSpec
  import opened HeapLaws
  import HeapRuns
  import opened HeapOwners
  import opened Heap
  import opened Scheduler
  import opened SchedulerLaws
  import opened SchedulerMemory
  import opened SchedulerRuns
  import opened TaskRecords
  import opened TaskCreation
  import opened FreedRecords
  import opened RecordReuse

  // ----- The kernel after tasking_init -----

  const REST: nat := HEAP_SIZE - 48

  function BootHeap(lo: nat): seq<Block> {
    [Block(lo, 24, false), Block(lo + 36, REST, true)]
  }

  function Task0(lo: nat): Task {
    Task(lo + 12, 0, 0, 0, 0, Running)
  }

  function Start(lo: nat): Kernel {
    Boot(BootHeap(lo), lo + 12)
  }

  lemma Rounded(n: nat)
    requires n % 8 == 0 && n <= WORD - 8
    ensures AlignUp(n, 8) == n
  {
    hide AlignUp;
    AlignUp8(n);
  }

  lemma StartIs(lo: nat)
    requires lo % 4 == 0
    ensures Kmalloc(HeapRuns.Initial(lo), TASK_SIZE) == (BootHeap(lo), lo + 12)
    ensures Inv(Start(lo), lo, lo + HEAP_SIZE)
  {
    hide AlignUp, Inv, Kmalloc, Tiles, Compact;
    Rounded(TASK_SIZE);
    var b := Block(lo, HEAP_SIZE - HEADER, true);
    KmallocFirst([], b, [], TASK_SIZE);
    assert [] + [b] + [] == HeapRuns.Initial(lo) && [] + Carve(b, TASK_SIZE) + [] == BootHeap(lo);
    HeapRuns.InitialWellFormed(lo);
    BootInv(HeapRuns.Initial(lo), lo, lo + HEAP_SIZE);
  }

  lemma NothingFreed(k: Kernel, heap: seq<Block>)
    requires k.reaped == []
    ensures NoReuse(k, heap)
  {
  }

  // ----- kmalloc(8) after one task has come and gone -----

  function CreatedTask(base: nat, entry: nat): Task {
    Task(base, base + 36 + TASK_STACK_SIZE - FRAME_SIZE, base + 36, entry, 1, Ready)
  }

  lemma StartCreate(lo: nat, entry: nat)
    requires lo % 4 == 0
    ensures TaskCreate(Start(lo), entry).1 == 1
    ensures TaskCreate(Start(lo), entry).0.ring == [Task0(lo), CreatedTask(lo + 48, entry)]
  {
    hide AlignUp, Kmalloc;
    Rounded(TASK_SIZE);
    Rounded(TASK_STACK_SIZE);
    var x, b := Block(lo, 24, false), Block(lo + 36, REST, true);
    KmallocFirst([x], b, [], TASK_SIZE);
    assert [x] + [b] + [] == BootHeap(lo);
    var y, c := Block(lo + 36, 24, false), Block(lo + 72, REST - 36, true);
    assert [x] + [y, c] + [] == [x, y] + [c] + [];
    KmallocFirst([x, y], c, [], TASK_STACK_SIZE);
  }

  /** With two tasks, the second comes and goes while the first waits. */
  lemma TwoTasks(k: Kernel)
    requires |k.ring| == 2 && k.zombie == 0 && k.ring[0].state.Running? && k.ring[1].state.Ready?
    requires k.ring[0].addr > 0 && k.ring[1].addr > 0 && k.ring[0].addr != k.ring[1].addr
    ensures ComeAndGo(k).ring == [k.ring[0], k.ring[1].(state := Terminated)]
  {
    hide Kfree;
    var s, t := k.ring[0], k.ring[1];
    assert Pick(k.ring, 1) == 1;
    var k1 := Schedule(k);
    assert k1.ring == [t.(state := Running), s.(state := Ready)];
    var e := k1.(ring := [t.(state := Terminated), s.(state := Ready)]);
    assert k1.ring[0 := k1.ring[0].(state := Terminated)] == e.ring && Pick(e.ring, 1) == 1;
    var k2 := TaskExit(k1);
    assert k2.ring == [s, t.(state := Terminated)] && k2.zombie == t.addr;
    assert Pick(k2.ring, 1) == 0;
  }

  lemma SmallRequest(lo: nat)
    ensures var h := [Block(lo, 24, false), Block(lo + 36, 8, false), Block(lo + 56, REST - 20, true)];
      && Kmalloc(BootHeap(lo), 8) == (h, lo + 48)
      && FirstFit(BootHeap(lo), 8) == 1 && Splits(BootHeap(lo), AlignUp(8, 8))
  {
    hide AlignUp, Kmalloc;
    Rounded(8);
    var x, b := Block(lo, 24, false), Block(lo + 36, REST, true);
    var y, c := Block(lo + 36, 8, false), Block(lo + 56, REST - 20, true);
    KmallocFirst([x], b, [], 8);
    assert [x] + [b] + [] == BootHeap(lo) && [x] + [y, c] + [] == [x, y, c];
  }

  /** `tasking_init`, one task that comes and goes, then `kmalloc(8)`: the header behind the eight
      bytes lies over the freed record, and its last word makes the dead task ready. The ring that
      memory now holds is one in which `schedule` runs that task next, on its freed stack. */
  lemma SmallRequestWakesDead(lo: nat, entry: nat, m: seq<byte>, n: seq<byte>)
    requires lo % 4 == 0 && entry < WORD && lo + HEAP_SIZE <= |m|
    requires var r := Recycle(Start(lo), entry); var h := Kmalloc(r.heap, 8).0;
      RingStored(m, r.ring) && Stored(n, h) && OnlyHeaders(m, n, h)
    ensures var r, t := Recycle(Start(lo), entry), CreatedTask(lo + 48, entry);
      && Inv(r, lo, lo + HEAP_SIZE) && t.pid in r.reaped && r.ring == [Task0(lo), t.(state := Terminated)]
      && !Walkable(n, r.ring)
      && Walkable(n, [Task0(lo), t]) && Pick([Task0(lo), t], 1) == 1
  {
    hide AlignUp, Kmalloc, Inv, ComeAndGo, Load, Stored, RecordAt;
    var k, t := Start(lo), CreatedTask(lo + 48, entry);
    var r := Recycle(k, entry);
    BootRecycled(lo, entry);
    SmallRequest(lo);
    StoredWalkable(m, r.ring);
    var h := Kmalloc(r.heap, 8).0;
    WalkPair(m, Task0(lo), t.(state := Terminated));
    BootWords(m, n, lo, h);
    WalkPair(n, Task0(lo), t);
    WalkPair(n, Task0(lo), t.(state := Terminated));
  }

  lemma BootRecycled(lo: nat, entry: nat)
    requires lo % 4 == 0 && entry < WORD
    ensures var r, t := Recycle(Start(lo), entry), CreatedTask(lo + 48, entry);
      && Inv(r, lo, lo + HEAP_SIZE) && t.pid in r.reaped && r.ring == [Task0(lo), t.(state := Terminated)]
      && r.heap == BootHeap(lo)
  {
    hide AlignUp, Kmalloc, Inv, ComeAndGo;
    var k := Start(lo);
    StartIs(lo);
    StartCreate(lo, entry);
    NothingFreed(k, Kmalloc(k.heap, TASK_SIZE).0);
    NothingFreed(k, Kmalloc(Kmalloc(k.heap, TASK_SIZE).0, TASK_STACK_SIZE).0);
    var j := ReuseHappens(k, entry, entry, lo, lo + HEAP_SIZE);
    NewTask(k, entry, lo, lo + HEAP_SIZE);
    TwoTasks(TaskCreate(k, entry).0);
  }

  lemma WalkPair(m: seq<byte>, s: Task, t: Task)
    ensures Walkable(m, [s, t]) <==> WalkAt(m, s, t.addr) && WalkAt(m, t, s.addr)
  {
    hide WalkAt;
    var ring := [s, t];
    assert NextTask(ring, 0) == t.addr && NextTask(ring, 1) == s.addr;
    if Walkable(m, ring) {
      assert WalkAt(m, ring[0], NextTask(ring, 0)) && WalkAt(m, ring[1], NextTask(ring, 1));
    }
  }

  /** The words of the two records after `kmalloc(8)`. */
  lemma BootWords(m: seq<byte>, n: seq<byte>, lo: nat, h: seq<Block>)
    requires h == [Block(lo, 24, false), Block(lo + 36, 8, false), Block(lo + 56, REST - 20, true)]
    requires Stored(n, h) && OnlyHeaders(m, n, h) && lo + HEAP_SIZE <= |m|
    ensures |n| == |m| && Load(n, lo + 64) == Code(Ready) && Load(n, lo + 68) == Load(m, lo + 68)
    ensures Load(n, lo + 28) == Load(m, lo + 28) && Load(n, lo + 32) == Load(m, lo + 32)
  {
    hide Load;
    assert HeaderAt(n, h[2], NextAddr(h, 2));
    forall x | lo + 68 <= x < lo + 72 || lo + 28 <= x < lo + 36 ensures n[x] == m[x] {
      assert !InHeader(h, x);
    }
    SameWords(m, n, lo + 68);
    SameWords(m, n, lo + 28);
    SameWords(m, n, lo + 32);
  }

  // ----- A frame over a freed record -----

  const HOLE: nat := 8176

  /** `tasking_init`; `x = kmalloc(8176)`; `task_create`; `kfree(x)`; the task comes and goes. */
  function AfterHole(lo: nat, entry: nat): Kernel {
    ComeAndGo(Hole(lo, entry))
  }

  function Hole(lo: nat, entry: nat): (k: Kernel)
    ensures k.ring != []
  {
    Step(TaskCreate(Step(Start(lo), Malloc(HOLE)), entry).0, Op.Free(lo + 48))
  }

  /** The blocks before the hole is freed: the record of task 0, the hole, record and stack of the
      task, and the rest. */
  function FullHeap(lo: nat): seq<Block> {
    [Block(lo, 24, false), Block(lo + 36, HOLE, false), Block(lo + 8224, 24, false), Block(lo + 8260, 8192, false),
     Block(lo + 16464, REST - 16428, true)]
  }

  lemma HoleAllocs(lo: nat, entry: nat)
    requires lo % 4 == 0
    ensures Kmalloc(BootHeap(lo), HOLE).1 == lo + 48
    ensures var k2 := TaskCreate(Step(Start(lo), Malloc(HOLE)), entry);
      && k2.1 == 1 && k2.0.heap == FullHeap(lo) && k2.0.ring == [Task0(lo), CreatedTask(lo + 8236, entry)]
  {
    hide AlignUp, Kmalloc;
    Rounded(HOLE);
    Rounded(TASK_SIZE);
    Rounded(TASK_STACK_SIZE);
    var h := FullHeap(lo);
    var b, c, d := Block(lo + 36, REST, true), Block(lo + 8224, REST - 8188, true), Block(lo + 8260, REST - 8224, true);
    KmallocFirst([h[0]], b, [], HOLE);
    assert [h[0]] + [b] + [] == BootHeap(lo);
    assert [h[0]] + [h[1], c] + [] == [h[0], h[1]] + [c] + [];
    KmallocFirst([h[0], h[1]], c, [], TASK_SIZE);
    assert [h[0], h[1]] + [h[2], d] + [] == [h[0], h[1], h[2]] + [d] + [];
    KmallocFirst([h[0], h[1], h[2]], d, [], TASK_STACK_SIZE);
    assert [h[0], h[1], h[2]] + [h[3], h[4]] + [] == h;
  }

  lemma HoleLegal(lo: nat, entry: nat)
    requires lo % 4 == 0 && entry < WORD
    ensures var k := Start(lo); var k1 := Step(k, Malloc(HOLE)); var k2 := TaskCreate(k1, entry).0;
      && Legal(k, Malloc(HOLE)) && Legal(k1, Create(entry)) && Legal(k2, Op.Free(lo + 48))
      && Inv(k2, lo, lo + HEAP_SIZE) && Inv(Hole(lo, entry), lo, lo + HEAP_SIZE)
  {
    hide AlignUp, Kmalloc, Kfree, Inv, NoReuse;
    var k := Start(lo);
    StartIs(lo);
    NothingFreed(k, Kmalloc(k.heap, HOLE).0);
    StepInv(k, Malloc(HOLE), lo, lo + HEAP_SIZE);
    var k1 := Step(k, Malloc(HOLE));
    NothingFreed(k1, Kmalloc(k1.heap, TASK_SIZE).0);
    NothingFreed(k1, Kmalloc(Kmalloc(k1.heap, TASK_SIZE).0, TASK_STACK_SIZE).0);
    StepInv(k1, Create(entry), lo, lo + HEAP_SIZE);
    HoleAllocs(lo, entry);
    var k2 := TaskCreate(k1, entry).0;
    assert FullHeap(lo)[1] in Live(FullHeap(lo));
    StepInv(k2, Op.Free(lo + 48), lo, lo + HEAP_SIZE);
  }

  /** Freeing the hole, the stack and the record gives back the heap of `tasking_init`. */
  lemma HoleFreed(lo: nat)
    requires lo % 4 == 0 && WellFormed(FullHeap(lo), lo, lo + HEAP_SIZE)
    ensures Kfree(Kfree(Kfree(FullHeap(lo), lo + 48), lo + 8272), lo + 8236) == BootHeap(lo)
  {
    hide Kfree, Tiles, Compact;
    var h, hi := FullHeap(lo), lo + HEAP_SIZE;
    var h1 := Kfree(h, lo + 48);
    assert Live(h) == {h[0], h[1], h[2], h[3]};
    KfreeStep(h, h[1], lo, hi);
    KfreeStep(h1, h[3], lo, hi);
    KfreeStep(Kfree(h1, lo + 8272), h[2], lo, hi);
    BootTiles(lo);
    Determined(Kfree(Kfree(h1, lo + 8272), lo + 8236), BootHeap(lo), lo, hi);
  }

  lemma BootTiles(lo: nat)
    ensures Tiles(BootHeap(lo), lo, lo + HEAP_SIZE) && Compact(BootHeap(lo))
    ensures Live(BootHeap(lo)) == {BootHeap(lo)[0]}
  {
    TilesTwo(BootHeap(lo)[0], BootHeap(lo)[1]);
  }

  lemma AfterHoleIs(lo: nat, entry: nat)
    requires lo % 4 == 0 && entry < WORD
    ensures var k, t := AfterHole(lo, entry), CreatedTask(lo + 8236, entry);
      && Inv(k, lo, lo + HEAP_SIZE) && k.heap == BootHeap(lo)
      && k.ring == [Task0(lo), t.(state := Terminated)] && IsReaped(k, k.ring[1])
  {
    hide AlignUp, Kmalloc, Kfree, Inv, ComeAndGo;
    HoleAllocs(lo, entry);
    HoleLegal(lo, entry);
    InvParts(TaskCreate(Step(Start(lo), Malloc(HOLE)), entry).0, lo, lo + HEAP_SIZE);
    var k := Hole(lo, entry);
    RunAndReap(k, lo, lo + HEAP_SIZE);
    HoleFreed(lo);
    TwoTasks(k);
  }

  lemma CreateAfterHole(lo: nat, entry: nat, entry': nat)
    requires lo % 4 == 0 && entry < WORD
    ensures AfterHole(lo, entry).ring != []
    ensures var r := TaskCreate(AfterHole(lo, entry), entry');
      r.1 != -1 && |r.0.ring| >= 2 && r.0.ring[1].addr == lo + 48 && r.0.ring[1].esp == lo + 8256
  {
    hide AlignUp, Kmalloc, Inv, AfterHole;
    AfterHoleIs(lo, entry);
    StartCreate(lo, entry');
    SameCreate(Start(lo), AfterHole(lo, entry), entry', entry');
  }

  /** The next `task_create` obtains a record that is in no ring, but its frame lies over the last
      word of the freed one: the link of the dead task becomes NULL. */
  lemma FrameSpoilsFreed(lo: nat, entry: nat, entry': nat, trampoline: nat, m: seq<byte>, n: seq<byte>)
    requires lo % 4 == 0 && entry < WORD && trampoline != Code(Terminated) && lo + HEAP_SIZE <= |m|
    requires var k := AfterHole(lo, entry);
      k.ring != [] && RingStored(m, k.ring) && Created(m, n, k, entry', trampoline)
    ensures var k := AfterHole(lo, entry); var r := TaskCreate(k, entry').0;
      && |k.ring| == 2 && k.ring[1].addr == lo + 8236
      && (forall i :: 0 <= i < |k.ring| ==> k.ring[i].addr != r.ring[1].addr)
      && !Walkable(n, r.ring) && lo + 8260 <= |n| && Load(n, k.ring[1].addr + 20) == 0
  {
    hide AlignUp, Kmalloc, Inv, AfterHole, Load, Stored, RecordAt, OnlyTouched, CreateHarmless, TaskCreate;
    var k := AfterHole(lo, entry);
    AfterHoleIs(lo, entry);
    CreateAfterHole(lo, entry, entry');
    CreateKeepsWalk(m, n, k, entry', trampoline, lo, lo + HEAP_SIZE);
    NotHarmless(k.heap, lo + 48, lo + 8256, lo + 8236);
    assert InitialFrame(n, lo + 8256, trampoline);
  }

  lemma NotHarmless(heap: seq<Block>, t: nat, sp: nat, a: nat)
    requires sp == a + 20
    ensures !CreateHarmless(heap, t, sp, a)
  {
  }
}
