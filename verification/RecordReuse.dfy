/** `schedule` frees the record of a finished task but no code unlinks it, so the ring stays
    whole only while the allocator does not hand such a record out again. This module shows
    that it does, and what then becomes of the walk along the links. */
module RecordReuse {
  import opened Bits
  import opened Memory
  import opened HeapSpec
  import opened HeapLaws
  import HeapRuns
  import opened HeapOwners
  import opened Heap
  import opened Scheduler
  import opened SchedulerLaws
  import opened SchedulerMemory
  import opened SchedulerRuns
  import opened TaskRecords
  import opened TaskCreation
  import opened FreedRecords

  // ----- A task that comes and goes -----

  /** Run the next task, let it finish, and let the next `schedule` free it. */
  function ComeAndGo(k: Kernel): Kernel
    requires k.ring != []
  {
    Schedule(TaskExit(Schedule(k)))
  }

  /** The same for a task created just before. */
  function Recycle(k: Kernel, entry: nat): Kernel
    requires k.ring != []
  {
    ComeAndGo(TaskCreate(k, entry).0)
  }

  /** `t` is still in the ring: nothing but its state and its place has changed. */
  ghost predicate Linked(ring: seq<Task>, t: Task) {
    exists j :: 0 <= j < |ring| && ring[j] == t.(state := ring[j].state)
  }

  lemma ScheduleKeeps(k: Kernel, t: Task)
    requires k.ring != [] && Linked(k.ring, t)
    ensures Schedule(k).ring != [] && Linked(Schedule(k).ring, t)
  {
    hide Kfree;
    var r := Reap(k);
    assert r.ring == k.ring;
    var o :| 0 <= o < |k.ring| && k.ring[o] == t.(state := k.ring[o].state);
    var i, n := Pick(r.ring, 1), |r.ring|;
    if i == 0 {
      assert Dispatch(r).ring[o] == t.(state := Dispatch(r).ring[o].state);
    } else {
      DispatchAt(r, To(n, i, o));
      var j := To(n, i, o);
      assert Dispatch(r).ring[j] == t.(state := Dispatch(r).ring[j].state);
    }
  }

  lemma ExitKeeps(k: Kernel, t: Task)
    requires k.ring != [] && Linked(k.ring, t)
    ensures TaskExit(k).ring != [] && Linked(TaskExit(k).ring, t)
  {
    hide Schedule;
    var e := k.(ring := k.ring[0 := k.ring[0].(state := Terminated)]);
    var o :| 0 <= o < |k.ring| && k.ring[o] == t.(state := k.ring[o].state);
    assert e.ring[o] == t.(state := e.ring[o].state);
    ScheduleKeeps(e, t);
  }

  lemma ComeAndGoKeeps(k: Kernel, t: Task)
    requires k.ring != [] && Linked(k.ring, t)
    ensures ComeAndGo(k).ring != [] && Linked(ComeAndGo(k).ring, t)
  {
    hide Schedule, TaskExit, Linked;
    ScheduleKeeps(k, t);
    ExitKeeps(Schedule(k), t);
    ScheduleKeeps(TaskExit(Schedule(k)), t);
  }

  lemma RunsNext(k: Kernel)
    requires |k.ring| >= 2 && k.zombie == 0 && k.ring[1].state.Ready?
    ensures var r := Schedule(k);
      r.ring != [] && r.heap == k.heap && r.reaped == k.reaped && r.ring[0] == k.ring[1].(state := Running)
  {
    assert Pick(k.ring, 1) == 1;
  }

  /** Where a task that exits stands afterwards. */
  lemma ExitPlace(k: Kernel) returns (z: nat)
    requires RingInv(k) && k.zombie == 0 && k.ring[0].pid != 0
    ensures var t, x := k.ring[0], TaskExit(k);
      && z < |x.ring| && x.ring[z] == t.(state := Terminated) && x.zombie == t.addr
      && x.heap == k.heap && x.reaped == k.reaped
  {
    var e := k.(ring := k.ring[0 := k.ring[0].(state := Terminated)]);
    ExitRing(k);
    assert Reap(e) == e;
    DispatchStates(e);
    hide RingInv, Exiting;
    z := To(|e.ring|, Pick(e.ring, 1), 0);
    DispatchAt(e, z);
    DispatchKeeps(e);
  }

  /** When the current task exits, the next `schedule` frees its stack and its record. */
  lemma ExitAndReap(k: Kernel, lo: nat, hi: nat)
    requires Inv(k, lo, hi) && k.zombie == 0 && k.ring[0].pid != 0
    ensures TaskExit(k).ring != []
    ensures var t, r := k.ring[0], Schedule(TaskExit(k));
      && Inv(r, lo, hi) && r.heap == Kfree(Kfree(k.heap, t.stackBase), t.addr)
      && r.reaped == k.reaped + [t.pid] && r.zombie == 0
  {
    hide TaskExit, MemoryInv, Kfree, States, Reaps, Dispatch;
    var x := TaskExit(k);
    var z := ExitPlace(k);
    StepInv(k, Exit, lo, hi);
    StepInv(x, Yield, lo, hi);
    ZombieFreed(x, z);
    PendingClears(x);
  }

  lemma ZombieFreed(k: Kernel, z: nat)
    requires RingInv(k) && z < |k.ring| && k.zombie == k.ring[z].addr
    ensures var t, r := k.ring[z], Schedule(k);
      r.heap == Kfree(Kfree(k.heap, t.stackBase), t.addr) && r.reaped == k.reaped + [t.pid]
  {
    hide Kfree, Dispatch, States, Reaps;
    assert TaskOk(k, k.ring[z]);
    IndexOfIs(k.ring, z);
    DispatchKeeps(Reap(k));
  }

  lemma DispatchKeeps(k: Kernel)
    requires k.ring != []
    ensures Dispatch(k).heap == k.heap && Dispatch(k).reaped == k.reaped
  {
  }

  /** A ready task right after the current one comes and goes: its memory is freed, its record
      stays linked. */
  lemma RunAndReap(k: Kernel, lo: nat, hi: nat)
    requires Inv(k, lo, hi) && k.zombie == 0 && |k.ring| >= 2 && k.ring[1].state.Ready? && k.ring[1].pid != 0
    ensures var r, t := ComeAndGo(k), k.ring[1];
      && Inv(r, lo, hi) && r.heap == Kfree(Kfree(k.heap, t.stackBase), t.addr)
      && r.reaped == k.reaped + [t.pid] && r.zombie == 0 && Linked(r.ring, t)
  {
    hide Kfree, Schedule, TaskExit, RingInv, MemoryInv;
    RunsNext(k);
    StepInv(k, Yield, lo, hi);
    PendingClears(k);
    ExitAndReap(Schedule(k), lo, hi);
    assert k.ring[1] == k.ring[1].(state := k.ring[1].state);
    ComeAndGoKeeps(k, k.ring[1]);
  }

  lemma PendingClears(k: Kernel)
    requires RingInv(k)
    ensures Schedule(k).zombie == 0
  {
    ScheduleRing(k);
  }

  // ----- The allocator returns the freed record -----

  lemma HeapComesBack(heap: seq<Block>, lo: nat, hi: nat)
    requires WellFormed(heap, lo, hi)
    ensures var (h1, t) := Kmalloc(heap, TASK_SIZE); var (h2, s) := Kmalloc(h1, TASK_STACK_SIZE);
      Kfree(Kfree(h2, s), t) == heap
  {
    hide Kmalloc, Kfree, WellFormed;
    HeapRuns.RoundTrip(heap, TASK_SIZE, lo, hi);
    var _ := KmallocStep(heap, TASK_SIZE, lo, hi);
    HeapRuns.RoundTrip(Kmalloc(heap, TASK_SIZE).0, TASK_STACK_SIZE, lo, hi);
  }

  lemma NewTask(k: Kernel, entry: nat, lo: nat, hi: nat)
    requires Inv(k, lo, hi) && TaskCreate(k, entry).1 != -1
    ensures var r := TaskCreate(k, entry).0;
      && |r.ring| >= 2 && r.ring[1].state.Ready? && r.ring[1].pid == k.nextPid > 0
      && r.zombie == k.zombie && r.reaped == k.reaped
  {
    hide Kmalloc, Kfree, WellFormed;
  }

  /** The task at place `j` has been freed and is the one `t` that came and went. */
  ghost predicate FreedAt(k: Kernel, j: nat, t: Task) {
    0 < j < |k.ring| && IsReaped(k, k.ring[j]) && k.ring[j].addr == t.addr && k.ring[j].pid == t.pid
  }

  /** From any state with nothing pending, after one task has come and gone, the heap is what
      it was and the next `task_create` gets the record that is still in the ring: creating
      one more task is never free of reuse. */
  lemma ReuseHappens(k: Kernel, entry: nat, entry': nat, lo: nat, hi: nat) returns (j: nat)
    requires Inv(k, lo, hi) && k.zombie == 0 && Legal(k, Create(entry)) && TaskCreate(k, entry).1 != -1
    ensures var r, t := Recycle(k, entry), TaskCreate(k, entry).0.ring[1];
      && Inv(r, lo, hi) && r.heap == k.heap && r.reaped == k.reaped + [t.pid]
      && FreedAt(r, j, t) && Kmalloc(r.heap, TASK_SIZE).1 == t.addr
      && !Legal(r, Create(entry'))
  {
    hide Kmalloc, Kfree, ComeAndGo, Inv, NoReuse;
    InvParts(k, lo, hi);
    var k1 := TaskCreate(k, entry).0;
    var t := k1.ring[1];
    StepInv(k, Create(entry), lo, hi);
    NewTask(k, entry, lo, hi);
    RunAndReap(k1, lo, hi);
    HeapAfter(k, entry, lo, hi);
    var r := Recycle(k, entry);
    j :| 0 <= j < |r.ring| && r.ring[j] == t.(state := r.ring[j].state);
    assert IsReaped(r, r.ring[j]);
    ReapedFinished(r, j, lo, hi);
    StillLinked(r, j, t, entry', lo, hi);
  }

  lemma HeapAfter(k: Kernel, entry: nat, lo: nat, hi: nat)
    requires Inv(k, lo, hi) && TaskCreate(k, entry).1 != -1
    ensures var r := TaskCreate(k, entry).0; var t := r.ring[1];
      Kfree(Kfree(r.heap, t.stackBase), t.addr) == k.heap && Kmalloc(k.heap, TASK_SIZE).1 == t.addr > 0
  {
    hide Kmalloc, Kfree, WellFormed;
    HeapComesBack(k.heap, lo, hi);
  }

  lemma StillLinked(k: Kernel, j: nat, t: Task, entry: nat, lo: nat, hi: nat)
    requires Inv(k, lo, hi) && FreedAt(k, j, t) && Kmalloc(k.heap, TASK_SIZE).1 == t.addr > 0
    ensures !Legal(k, Create(entry))
  {
    hide Kmalloc, Stale, OwnsBlock;
    KmallocFresh(k.heap, TASK_SIZE, lo, hi);
    assert !Stale(Kmalloc(k.heap, TASK_SIZE).0, k.ring[j].addr, TASK_SIZE);
  }

  // ----- What reuse of a record does to the walk -----

  /** The address reached from the record at `a` by following `n` links in memory. */
  function Follow(m: seq<byte>, a: nat, n: nat): nat {
    if n == 0 then a
    else
      var b := Follow(m, a, n - 1);
      if b + TASK_SIZE <= |m| then Load(m, b + 20) else 0
  }

  /** The link of a record before place `j`, after a `task_create` that got the record at `j`. */
  lemma LinkKept(m: seq<byte>, n: seq<byte>, k: Kernel, entry: nat, trampoline: nat, i: nat, lo: nat, hi: nat)
    requires Inv(k, lo, hi) && TaskCreate(k, entry).1 != -1 && hi <= |m| && RingStored(m, k.ring)
    requires Created(m, n, k, entry, trampoline) && 0 < i < |k.ring|
    requires var t := TaskCreate(k, entry).0.ring[1];
      IsReaped(k, k.ring[i]) ==> CreateHarmless(k.heap, t.addr, t.esp, k.ring[i].addr)
    ensures k.ring[i].addr + TASK_SIZE <= |n| && Load(n, k.ring[i].addr + 20) == NextTask(k.ring, i)
  {
    hide Inv, CreateHarmless, Created, TaskCreate, NextTask, Load, ClearOf;
    if IsReaped(k, k.ring[i]) {
      CreateSpares(m, n, k, entry, trampoline, i, lo, hi);
      FreedRecord(m, k, i, lo, hi);
    } else {
      LiveClear(k, entry, i, lo, hi);
      RecordKept(m, n, k, entry, trampoline, i, lo, hi);
    }
  }

  /** The links go from place 1 to place `j` and from there back to place 1. */
  ghost predicate Trap(n: seq<byte>, ring: seq<Task>, j: nat)
    requires 0 < j < |ring|
  {
    forall i :: 1 <= i <= j ==>
      && ring[i].addr + TASK_SIZE <= |n|
      && Load(n, ring[i].addr + 20) == ring[if i < j then i + 1 else 1].addr
  }

  lemma {:induction false} Trapped(n: seq<byte>, ring: seq<Task>, j: nat, steps: nat) returns (i: nat)
    requires 0 < j < |ring| && Trap(n, ring, j)
    ensures 1 <= i <= j && Follow(n, ring[j].addr, steps) == ring[i].addr
  {
    hide Load;
    i := j;
    if steps > 0 {
      i := Trapped(n, ring, j, steps - 1);
      i := if i < j then i + 1 else 1;
    }
  }

  /** If `task_create` obtains the record that is still in the ring at place `j`, and spares the
      others, the walk from it goes round the places 1 to `j` for ever and never meets the current
      task again. */
  lemma ReuseTrapsWalk(m: seq<byte>, n: seq<byte>, k: Kernel, entry: nat, trampoline: nat, j: nat, steps: nat,
                       lo: nat, hi: nat)
    requires Inv(k, lo, hi) && TaskCreate(k, entry).1 != -1 && hi <= |m| && RingStored(m, k.ring)
    requires Created(m, n, k, entry, trampoline) && 0 < j < |k.ring|
    requires var t := TaskCreate(k, entry).0.ring[1];
      && t.addr == k.ring[j].addr
      && forall i :: 0 < i < j && IsReaped(k, k.ring[i]) ==> CreateHarmless(k.heap, t.addr, t.esp, k.ring[i].addr)
    ensures exists i :: 1 <= i <= j && Follow(n, k.ring[j].addr, steps) == k.ring[i].addr
    ensures Follow(n, k.ring[j].addr, steps) != k.ring[0].addr
  {
    hide Inv, CreateHarmless, Created, TaskCreate, Load, RecordAt, RingStored, NextTask, Follow;
    InvParts(k, lo, hi);
    forall i | 1 <= i <= j
      ensures k.ring[i].addr + TASK_SIZE <= |n|
        && Load(n, k.ring[i].addr + 20) == k.ring[if i < j then i + 1 else 1].addr
    {
      if i < j {
        LinkKept(m, n, k, entry, trampoline, i, lo, hi);
        NextIs(k.ring, i);
      } else {
        NewLink(m, n, k, entry, trampoline);
        NextIs(k.ring, 0);
      }
    }
    var i := Trapped(n, k.ring, j, steps);
    AwayFromFirst(k);
  }

  lemma AwayFromFirst(k: Kernel)
    requires RingInv(k)
    ensures forall i :: 0 < i < |k.ring| ==> k.ring[i].addr != k.ring[0].addr
  {
  }

  lemma NextIs(ring: seq<Task>, i: nat)
    requires i + 1 < |ring|
    ensures NextTask(ring, i) == ring[i + 1].addr
  {
  }

  lemma NewLink(m: seq<byte>, n: seq<byte>, k: Kernel, entry: nat, trampoline: nat)
    requires k.ring != [] && Created(m, n, k, entry, trampoline)
    ensures var t := TaskCreate(k, entry).0.ring[1].addr;
      t + TASK_SIZE <= |n| && Load(n, t + 20) == NextTask(k.ring, 0)
  {
    hide Load, Stored, InitialFrame, OnlyTouched, TaskCreate, NextTask;
  }

  /** A `task_create` that hands out no freed record spares them all. */
  lemma LegalHarmless(k: Kernel, entry: nat, i: nat, lo: nat, hi: nat)
    requires Inv(k, lo, hi) && Legal(k, Create(entry)) && TaskCreate(k, entry).1 != -1
    requires i < |k.ring| && IsReaped(k, k.ring[i])
    ensures var t := TaskCreate(k, entry).0.ring[1]; CreateHarmless(k.heap, t.addr, t.esp, k.ring[i].addr)
  {
    hide Inv, Alloc, Kmalloc, Kfree, Splits, Stale, Tiles, InPayload;
    InvParts(k, lo, hi);
    var r, a := TaskCreate(k, entry).0, k.ring[i].addr;
    CreateOwn(k, entry, lo, hi);
    FreedClear(k, entry, i, lo, hi);
    CreateAllocs(k, entry);
    var b, c := CreateRests(k, entry);
    WholeHeap(r.heap, lo, hi);
    if b in r.heap { HeaderMisses(r.heap, b, a, lo, hi); }
    if c in r.heap { HeaderMisses(r.heap, c, a, lo, hi); }
  }

  lemma HeaderMisses(heap: seq<Block>, b: Block, a: nat, lo: nat, hi: nat)
    requires Tiles(heap, lo, hi) && b in heap && InPayload(heap, a, TASK_SIZE)
    ensures Disjoint(a, TASK_SIZE, b.addr, HEADER)
  {
    HeapRuns.BlocksDisjoint(heap, b, lo, hi);
  }

  /** So, from any state with nothing pending: once a task has come and gone and nothing else has
      used the heap, the task created next cuts the current task off. Whoever follows the links from
      the new task never meets it again. */
  lemma NextCreateBreaksRing(k: Kernel, entry: nat, m: seq<byte>, n: seq<byte>, entry': nat, trampoline: nat,
                             steps: nat, lo: nat, hi: nat)
    requires Inv(k, lo, hi) && k.zombie == 0 && Legal(k, Create(entry)) && TaskCreate(k, entry).1 != -1
    requires var r := Recycle(k, entry);
      r.ring != [] && RingStored(m, r.ring) && hi <= |m| && Created(m, n, r, entry', trampoline)
    ensures var r := Recycle(k, entry); var t := TaskCreate(r, entry').0.ring[1].addr;
      Linked(r.ring, TaskCreate(k, entry).0.ring[1]) && Follow(n, t, steps) != r.ring[0].addr
  {
    hide Kmalloc, Kfree, ComeAndGo, Inv, Legal, Created, RingStored, Follow, CreateHarmless;
    InvParts(k, lo, hi);
    var r, t := Recycle(k, entry), TaskCreate(k, entry).0.ring[1];
    var j := ReuseHappens(k, entry, entry', lo, hi);
    StepInv(k, Create(entry), lo, hi);
    NewTask(k, entry, lo, hi);
    InvParts(r, lo, hi);
    RunAndReap(TaskCreate(k, entry).0, lo, hi);
    SameCreate(k, r, entry, entry');
    forall i | 0 < i < j && IsReaped(r, r.ring[i]) ensures CreateHarmless(r.heap, t.addr, t.esp, r.ring[i].addr) {
      var o := FreedBefore(k, entry, i, j, lo, hi);
      LegalHarmless(k, entry, o, lo, hi);
    }
    ReuseTrapsWalk(m, n, r, entry', trampoline, j, steps, lo, hi);
  }

  lemma SameCreate(k: Kernel, r: Kernel, entry: nat, entry': nat)
    requires k.ring != [] && r.ring != [] && r.heap == k.heap && TaskCreate(k, entry).1 != -1
    ensures TaskCreate(r, entry').1 != -1
    ensures TaskCreate(r, entry').0.ring[1].addr == TaskCreate(k, entry).0.ring[1].addr
    ensures TaskCreate(r, entry').0.ring[1].esp == TaskCreate(k, entry).0.ring[1].esp
  {
    hide Kmalloc, Kfree;
  }

  /** Another freed record of the later ring was already freed in the earlier one. */
  lemma FreedBefore(k: Kernel, entry: nat, i: nat, j: nat, lo: nat, hi: nat) returns (o: nat)
    requires Inv(k, lo, hi) && k.zombie == 0 && Legal(k, Create(entry)) && TaskCreate(k, entry).1 != -1
    requires var r, t := Recycle(k, entry), TaskCreate(k, entry).0.ring[1];
      Inv(r, lo, hi) && r.reaped == k.reaped + [t.pid] && FreedAt(r, j, t) && i < j && IsReaped(r, r.ring[i])
    ensures o < |k.ring| && IsReaped(k, k.ring[o]) && k.ring[o].addr == Recycle(k, entry).ring[i].addr
  {
    hide Kmalloc, Kfree, ComeAndGo, MemoryInv, NoReuse;
    var r, k1 := Recycle(k, entry), TaskCreate(k, entry).0;
    SamePid(r, i, j);
    assert r.ring[i].pid in k.reaped;
    o :| 0 <= o < |k.ring| && k.ring[o].pid == r.ring[i].pid;
    var o' := if o == 0 then 0 else o + 1;
    assert k1.ring[o'] == k.ring[o];
    assert k.ring[o] == k.ring[o].(state := k1.ring[o'].state);
    ComeAndGoKeeps(k1, k.ring[o]);
    var l :| 0 <= l < |r.ring| && r.ring[l] == k.ring[o].(state := r.ring[l].state);
    SamePid(r, i, l);
  }

  lemma SamePid(k: Kernel, i: nat, j: nat)
    requires RingInv(k) && i < |k.ring| && j < |k.ring|
    ensures k.ring[i].pid == k.ring[j].pid ==> i == j
  {
  }
}
