/** Any run of the kernel gives each suspended task back exactly its own context. Only the running
    tasks are assumed to respect others; that the kernel does is proved. */
module SwitchRuns {
  import opened Bits
  import opened Memory
  import opened HeapSpec
  import opened HeapLaws
  import HeapRuns
  import opened HeapOwners
  import opened Heap
  import opened HeapPayloads
  import opened Scheduler
  import opened SchedulerLaws
  import opened SchedulerMemory
  import SchedulerRuns
  import opened TaskRecords
  import opened TaskCreation
  import opened FreedRecords
  import opened RecordReuse
  import opened ContextSwitch
  import opened Tasking
  import opened TaskSwitch
  import opened SwitchSystem

  // ----- Events -----

  /** A task that has never run: all registers zero, stack empty, about to enter the trampoline. */
  function NewContext(sp: nat, trampoline: nat): Context {
    Context(0, 0, 0, 0, sp + FRAME, trampoline)
  }

  function SavedAfter(k: Kernel, op: Op, trampoline: nat, saved: map<nat, Context>): map<nat, Context>
    requires k.ring != []
  {
    if Created?(k, op) then saved[k.nextPid := NewContext(NewEsp(k, op), trampoline)] else saved
  }

  /** The stack pointer that the new task starts with. */
  function NewEsp(k: Kernel, op: Op): nat
    requires k.ring != [] && Created?(k, op)
  {
    TaskCreate(k, op.entry).0.ring[1].esp
  }

  /** The start of the stack that the new task is given. */
  function NewStack(k: Kernel, op: Op): nat
    requires k.ring != [] && Created?(k, op)
  {
    TaskCreate(k, op.entry).0.ring[1].stackBase
  }

  lemma StackFull(k: Kernel, op: Op)
    requires k.ring != [] && Created?(k, op)
    ensures NewEsp(k, op) + FRAME == NewStack(k, op) + 8192
  {
    hide Kmalloc, Kfree;
  }

  /** `schedule` has chosen another task than the one that runs; the code that runs has pushed the
      two arguments and the return address on its own stack, and four words more fit there. */
  ghost predicate AtSwitch(s: System, prev: nat, z: Zone) {
    && 0 < prev < |s.k.ring| && RunsAt(s.k, s.on, prev)
    && s.k.ring[0].pid != s.on
    && 16 <= s.cpu.esp && s.cpu.esp + 12 <= |s.m| && InStack(z, s.k.ring[prev], s.cpu.esp - 16, 28)
    && Load(s.m, s.cpu.esp + 4) == s.k.ring[prev].addr && Load(s.m, s.cpu.esp + 8) == s.k.ring[0].esp
  }

  ghost predicate Next(s: System, e: Event, r: System, z: Zone) {
    match e
    case Compute =>
      r.k == s.k && r.on == s.on && r.saved == s.saved && Respects(s, r.m, z)
    case Call(op, trampoline) =>
      && s.k.ring != [] && s.k.ring[0].pid == s.on && Legal(s.k, op)
      && r.k == Step(s.k, op) && r.on == s.on && r.saved == SavedAfter(s.k, op, trampoline, s.saved)
      && KernelWrites(s.m, r.m, s.k, op, trampoline) && Stored(r.m, r.k.heap) && RingStored(r.m, r.k.ring)
    case Switch(prev) =>
      && AtSwitch(s, prev, z) && Callable(s.m, s.cpu.esp) && Switched(s.m, s.cpu, r.m, r.cpu)
      && r.k == s.k.(ring := WithEsp(s.k.ring, prev, s.cpu.esp - 16)) && r.on == s.k.ring[0].pid
      && r.saved == (s.saved - {r.on})[s.on := Caller(s.m, s.cpu)]
  }

  // ----- Kernel operations -----

  /** Where the suspended tasks of a later ring come from. */
  ghost predicate SameSuspended(k: Kernel, r: Kernel, on: nat, i: nat, j: nat) {
    && i < |k.ring| && j < |r.ring| && Suspended(k, on, i)
    && r.ring[j].pid == k.ring[i].pid && r.ring[j].esp == k.ring[i].esp && r.ring[j].stackBase == k.ring[i].stackBase
  }

  lemma ScheduleSuspends(k: Kernel, on: nat, j: nat) returns (i: nat)
    requires k.ring != [] && k.ring[0].pid == on && Suspended(Schedule(k), on, j)
    ensures SameSuspended(k, Schedule(k), on, i, j)
  {
    hide Kfree;
    var r := Reap(k);
    assert r.ring == k.ring;
    var p, n := Pick(r.ring, 1), |r.ring|;
    if p == 0 {
      i := j;
    } else {
      DispatchAt(r, j);
      i := From(n, p, j);
    }
  }

  lemma ExitSuspends(k: Kernel, on: nat, j: nat) returns (i: nat)
    requires k.ring != [] && k.ring[0].pid == on && Suspended(TaskExit(k), on, j)
    ensures SameSuspended(k, TaskExit(k), on, i, j)
  {
    hide Schedule;
    i := ScheduleSuspends(k.(ring := k.ring[0 := k.ring[0].(state := Terminated)]), on, j);
  }

  lemma CreateSuspends(k: Kernel, entry: nat, on: nat, j: nat) returns (i: nat)
    requires k.ring != [] && k.ring[0].pid == on && Suspended(TaskCreate(k, entry).0, on, j)
    ensures (TaskCreate(k, entry).1 != -1 && j == 1) || SameSuspended(k, TaskCreate(k, entry).0, on, i, j)
  {
    hide Kmalloc, Kfree;
    i := if TaskCreate(k, entry).1 == -1 || j == 0 then j else j - 1;
  }

  /** Apart from the task it creates, an operation suspends nobody and moves no saved stack
      pointer. */
  lemma StepSuspends(k: Kernel, op: Op, on: nat, j: nat) returns (i: nat)
    requires k.ring != [] && k.ring[0].pid == on && (op.Malloc? ==> op.n < WORD) && Suspended(Step(k, op), on, j)
    ensures (Created?(k, op) && j == 1) || SameSuspended(k, Step(k, op), on, i, j)
  {
    hide Kmalloc, Kfree, Schedule, TaskExit, TaskCreate;
    match op
    case Create(entry) => i := CreateSuspends(k, entry, on, j);
    case Exit => i := ExitSuspends(k, on, j);
    case Yield => i := ScheduleSuspends(k, on, j);
    case Tick =>
      if !k.paused && k.ticks + 1 >= QUANTUM {
        i := ScheduleSuspends(k.(ticks := 0), on, j);
      } else {
        i := j;
      }
    case _ => i := j;
  }

  /** The task that calls the kernel keeps its place and its memory, even when it exits. */
  lemma ScheduleRuns(k: Kernel) returns (o: nat)
    requires RingInv(k) || Exiting(k)
    ensures RunsAt(Schedule(k), k.ring[0].pid, o)
  {
    ReapRing(k);
    hide Reap;
    var r, t := Reap(k), k.ring[0];
    assert r.ring == k.ring && t.pid !in r.reaped;
    var p, n := Pick(r.ring, 1), |r.ring|;
    DispatchKeeps(r);
    if p == 0 {
      o := 0;
    } else {
      DispatchAt(r, To(n, p, 0));
      o := To(n, p, 0);
    }
  }

  lemma StepRuns(k: Kernel, op: Op, lo: nat, hi: nat) returns (o: nat)
    requires Inv(k, lo, hi) && Legal(k, op)
    ensures RunsAt(Step(k, op), k.ring[0].pid, o)
  {
    hide Kmalloc, Kfree, Schedule, MemoryInv, NoReuse;
    InvParts(k, lo, hi);
    o := 0;
    match op
    case Exit =>
      ExitRing(k);
      o := ScheduleRuns(k.(ring := k.ring[0 := k.ring[0].(state := Terminated)]));
    case Yield => o := ScheduleRuns(k);
    case Tick =>
      if !k.paused && k.ticks + 1 >= QUANTUM {
        SameRing(k, k.(ticks := 0));
        o := ScheduleRuns(k.(ticks := 0));
      }
    case _ =>
  }

  lemma LegalSize(k: Kernel, op: Op)
    requires k.ring != [] && Legal(k, op)
    ensures op.Malloc? ==> op.n < WORD
  {
    hide NoReuse;
  }

  lemma NewKept(m: seq<byte>, n: seq<byte>, k: Kernel, entry: nat, trampoline: nat, saved: map<nat, Context>, z: Zone)
    requires Inv(k, z.lo, z.hi) && TaskCreate(k, entry).1 != -1 && Created(m, n, k, entry, trampoline)
    requires var t := TaskCreate(k, entry).0.ring[1]; t.pid in saved && saved[t.pid] == NewContext(t.esp, trampoline)
    ensures Keeps(n, TaskCreate(k, entry).0.ring[1], saved, z)
  {
    hide Kmalloc, Kfree, Inv, Load, Stored, RecordAt, OnlyTouched;
    InvParts(k, z.lo, z.hi);
    CreateOwn(k, entry, z.lo, z.hi);
    assert InitialFrame(n, TaskCreate(k, entry).0.ring[1].esp, trampoline);
  }

  lemma PidsBelow(k: Kernel, i: nat)
    requires RingInv(k) && i < |k.ring|
    ensures k.ring[i].pid < k.nextPid
  {
    assert TaskOk(k, k.ring[i]);
  }

  lemma KernelKeeps(s: System, op: Op, trampoline: nat, r: System, z: Zone, j: nat)
    requires SystemInv(s, z) && Next(s, Call(op, trampoline), r, z) && Suspended(r.k, r.on, j)
    ensures Keeps(r.m, r.k.ring[j], r.saved, z)
  {
    hide KernelWrites, Legal, Inv, Stored, RingStored, Keeps, Step, RunsAt, TaskCreate;
    InvParts(s.k, z.lo, z.hi);
    LegalSize(s.k, op);
    var i := StepSuspends(s.k, op, s.on, j);
    if Created?(s.k, op) && j == 1 {
      NewIsKept(s, op, trampoline, r, z);
    } else {
      NotFreed(s.k, s.on, i, z.lo, z.hi);
      KernelSpares(s.m, r.m, s.k, op, trampoline, i, z);
      assert Keeps(s.m, s.k.ring[i], s.saved, z);
      KeepsFrame(s.m, r.m, s.k.ring[i], s.saved, z);
      PidsBelow(s.k, i);
      SameKeeps(r.m, s.k.ring[i], r.k.ring[j], s.saved, r.saved, z);
    }
  }

  lemma SameKeeps(m: seq<byte>, t: Task, u: Task, saved: map<nat, Context>, saved': map<nat, Context>, z: Zone)
    requires Keeps(m, t, saved, z) && u.pid == t.pid && u.esp == t.esp && u.stackBase == t.stackBase
    requires t.pid in saved ==> t.pid in saved' && saved'[t.pid] == saved[t.pid]
    ensures Keeps(m, u, saved', z)
  {
  }

  lemma NewIsKept(s: System, op: Op, trampoline: nat, r: System, z: Zone)
    requires SystemInv(s, z) && Next(s, Call(op, trampoline), r, z) && Created?(s.k, op) && |r.k.ring| > 1
    ensures Keeps(r.m, r.k.ring[1], r.saved, z)
  {
    hide Kmalloc, Kfree, Inv, Stored, RingStored, Keeps, RunsAt, Created, AllKept, Legal;
    assert r.k.ring[1].pid == s.k.nextPid;
    NewKept(s.m, r.m, s.k, op.entry, trampoline, r.saved, z);
  }

  lemma KernelInv(s: System, op: Op, trampoline: nat, r: System, z: Zone)
    requires SystemInv(s, z) && Next(s, Call(op, trampoline), r, z)
    ensures SystemInv(r, z)
  {
    hide Legal, Inv, Stored, RingStored, Keeps, Step, RunsAt, Suspended, TaskCreate;
    StepInv(s.k, op, z.lo, z.hi);
    var o := StepRuns(s.k, op, z.lo, z.hi);
    assert RunsAt(r.k, r.on, o) && o < |r.k.ring| by { RunsInRing(r.k, r.on, o); }
    forall j | 0 <= j < |r.k.ring| && Suspended(r.k, r.on, j) ensures Keeps(r.m, r.k.ring[j], r.saved, z) {
      KernelKeeps(s, op, trampoline, r, z, j);
    }
    LegalSize(s.k, op);
    LengthKept(s.m, r.m, s.k, op, trampoline);
  }

  lemma RunsInRing(k: Kernel, on: nat, o: nat)
    requires RunsAt(k, on, o)
    ensures o < |k.ring|
  {
  }

  lemma LengthKept(m: seq<byte>, n: seq<byte>, k: Kernel, op: Op, trampoline: nat)
    requires k.ring != [] && (op.Malloc? ==> op.n < WORD) && KernelWrites(m, n, k, op, trampoline)
    ensures |n| == |m|
  {
    hide Kmalloc, TaskCreate, Stored, RecordAt, InitialFrame;
  }

  // ----- The call of switch_to -----

  /** The words that the call writes lie in memory of the running task: no header, no record. */
  lemma SwitchOwnStack(s: System, prev: nat, z: Zone)
    requires SystemInv(s, z) && AtSwitch(s, prev, z)
    ensures OwnStack(s.k.heap, s.k.ring, s.cpu.esp, z.lo, z.hi)
  {
    hide Load, Inv, Stored, RingStored, FrameAt, AllKept;
    InvParts(s.k, z.lo, z.hi);
    StackPrivate(s.k, prev, z);
    PrivateStack(s.k.heap, StackBase(z, s.k.ring[prev]), StackSize(z, s.k.ring[prev]), s.cpu.esp - 16, 16, z);
    forall i | 0 <= i < |s.k.ring| ensures Disjoint(s.k.ring[i].addr, TASK_SIZE, s.cpu.esp - 16, 16) {
      StackRecord(s.k, prev, i, z);
    }
  }

  /** `switch_to` is called as it demands: this follows from the invariant and from the caller
      pushing its arguments on its own stack. */
  lemma SwitchCallable(s: System, prev: nat, z: Zone)
    requires SystemInv(s, z) && AtSwitch(s, prev, z)
    ensures Callable(s.m, s.cpu.esp)
  {
    hide Load, Inv, Stored, RingStored, FrameAt;
    InvParts(s.k, z.lo, z.hi);
    RecordInside(s.k, prev, z.lo, z.hi);
    StackRecord(s.k, prev, prev, z);
    assert Keeps(s.m, s.k.ring[0], s.saved, z);
    FrameSize(s.m, s.k.ring[0].esp, s.saved[s.k.ring[0].pid]);
    NotFreed(s.k, s.on, 0, z.lo, z.hi);
    StacksApart(s.k, 0, prev, z);
    StackRecord(s.k, 0, prev, z);
  }

  lemma FrameSize(m: seq<byte>, sp: nat, c: Context)
    requires FrameAt(m, sp, c)
    ensures sp + FRAME <= |m|
  {
  }

  lemma PrivateStack(heap: seq<Block>, a: nat, n: nat, b: nat, k: nat, z: Zone)
    requires Private(heap, a, n, z) && a <= b && b + k <= a + n
    ensures InPayload(heap, b, k) || b + k <= z.lo || z.hi <= b
  {
    if OwnsBlock(heap, a, n) {
      OwnsInPayload(heap, a, n);
      Sub(heap, a, n, b, k);
    }
  }

  lemma FrameUnique(m: seq<byte>, sp: nat, c: Context, d: Context)
    requires FrameAt(m, sp, c) && FrameAt(m, sp, d)
    ensures c == d
  {
  }

  /** The stacks of the tasks that stay suspended are not touched. */
  lemma SwitchSpares(s: System, prev: nat, r: System, z: Zone, j: nat)
    requires SystemInv(s, z) && Next(s, Switch(prev), r, z) && Suspended(s.k, s.on, j) && j != prev
    ensures SameRange(s.m, r.m, StackBase(z, s.k.ring[j]), StackSize(z, s.k.ring[j]))
  {
    hide Load, Inv, Stored, RingStored, FrameAt, Callable, AllKept;
    InvParts(s.k, z.lo, z.hi);
    NotFreed(s.k, s.on, j, z.lo, z.hi);
    StacksApart(s.k, j, prev, z);
    StackRecord(s.k, j, prev, z);
  }

  lemma SwitchKeeps(s: System, prev: nat, r: System, z: Zone, j: nat)
    requires SystemInv(s, z) && Next(s, Switch(prev), r, z) && Suspended(r.k, r.on, j)
    ensures Keeps(r.m, r.k.ring[j], r.saved, z)
  {
    hide Load, Inv, Stored, RingStored, FrameAt, Callable, SwitchFrame;
    InvParts(s.k, z.lo, z.hi);
    if j != prev {
      SwitchKeepsOther(s, prev, r, z, j);
    }
  }

  lemma SwitchKeepsOther(s: System, prev: nat, r: System, z: Zone, j: nat)
    requires SystemInv(s, z) && Next(s, Switch(prev), r, z) && Suspended(r.k, r.on, j) && j != prev
    ensures Keeps(r.m, r.k.ring[j], r.saved, z)
  {
    hide Load, Inv, Stored, RingStored, Callable, Switched, Keeps;
    InvParts(s.k, z.lo, z.hi);
    SamePid(s.k, j, prev);
    assert Keeps(s.m, s.k.ring[j], s.saved, z);
    SwitchSpares(s, prev, r, z, j);
    KeepsFrame(s.m, r.m, s.k.ring[j], s.saved, z);
    SameKeeps(r.m, s.k.ring[j], r.k.ring[j], s.saved, r.saved, z);
  }

  lemma SwitchInv(s: System, prev: nat, r: System, z: Zone)
    requires SystemInv(s, z) && Next(s, Switch(prev), r, z)
    ensures SystemInv(r, z) && s.k.ring[0].pid in s.saved && r.cpu == s.saved[s.k.ring[0].pid]
  {
    hide Load, Inv, Stored, RingStored, FrameAt, Callable, SwitchFrame, OwnStack, Apart;
    InvParts(s.k, z.lo, z.hi);
    SwitchOwnStack(s, prev, z);
    RecordInside(s.k, prev, z.lo, z.hi);
    WholeHeap(s.k.heap, z.lo, z.hi);
    SwitchStored(s.m, r.m, s.k.heap, s.k.ring, prev, s.cpu.esp, z.lo, z.hi);
    EspInv(s.k, prev, s.cpu.esp - 16, z.lo, z.hi);
    NotFreed(s.k, s.on, 0, z.lo, z.hi);
    assert RunsAt(r.k, r.on, 0);
    forall j | 0 <= j < |r.k.ring| && Suspended(r.k, r.on, j) ensures Keeps(r.m, r.k.ring[j], r.saved, z) {
      SwitchKeeps(s, prev, r, z, j);
    }
    assert Keeps(s.m, s.k.ring[0], s.saved, z);
    FrameUnique(s.m, s.k.ring[0].esp, r.cpu, s.saved[s.k.ring[0].pid]);
  }

  /** Every event keeps the invariant: whatever the kernel does, exits, frees and new tasks included,
      each suspended task still has its context on its own stack. */
  lemma NextInv(s: System, e: Event, r: System, z: Zone)
    requires SystemInv(s, z) && Next(s, e, r, z)
    ensures SystemInv(r, z)
  {
    hide KernelStored, AllKept, RunsAt, AtSwitch, Respects, KernelWrites, Switched;
    match e
    case Compute =>
      ComputeInv(s, r.m, z);
    case Call(op, trampoline) => KernelInv(s, op, trampoline, r, z);
    case Switch(prev) => SwitchInv(s, prev, r, z);
  }

  // ----- Runs -----

  ghost predicate Run(states: seq<System>, events: seq<Event>, z: Zone) {
    && |states| == |events| + 1
    && forall i :: 0 <= i < |events| ==> Next(states[i], events[i], states[i + 1], z)
  }

  /** `tasking_init` has just run: nothing is suspended. */
  lemma BootSystem(m: seq<byte>, cpu: Context, heap: seq<Block>, z: Zone)
    requires WellFormed(heap, z.lo, z.hi) && Kmalloc(heap, TASK_SIZE).1 != 0 && ZoneOk(z) && z.hi <= |m| <= WORD
    requires var (h, t) := Kmalloc(heap, TASK_SIZE); Stored(m, h) && RingStored(m, Boot(h, t).ring)
    ensures SystemInv(System(m, cpu, Boot(Kmalloc(heap, TASK_SIZE).0, Kmalloc(heap, TASK_SIZE).1), 0, map[]), z)
  {
    hide Kmalloc, Inv, Stored, RingStored;
    SchedulerRuns.BootInv(heap, z.lo, z.hi);
    assert RunsAt(Boot(Kmalloc(heap, TASK_SIZE).0, Kmalloc(heap, TASK_SIZE).1), 0, 0);
  }

  lemma {:induction false} RunInv(states: seq<System>, events: seq<Event>, i: nat, z: Zone)
    requires Run(states, events, z) && SystemInv(states[0], z) && i < |states|
    ensures SystemInv(states[i], z)
  {
    hide SystemInv, Next;
    if i > 0 {
      RunInv(states, events, i - 1, z);
      NextInv(states[i - 1], events[i - 1], states[i], z);
    }
  }

  /** The event resumes the task `p`. */
  predicate Resumes(s: System, e: Event, p: nat) {
    e.Switch? && s.k.ring != [] && s.k.ring[0].pid == p
  }

  lemma StepPids(k: Kernel, op: Op)
    requires k.ring != [] && (op.Malloc? ==> op.n < WORD)
    ensures Step(k, op).nextPid >= k.nextPid
  {
    hide Kmalloc, Kfree;
  }

  /** One event that does not resume `p` keeps its saved context. */
  lemma SavedStep(s: System, e: Event, r: System, p: nat, z: Zone)
    requires Next(s, e, r, z) && p in s.saved && s.on != p && p < s.k.nextPid && !Resumes(s, e, p)
    ensures p in r.saved && r.saved[p] == s.saved[p] && r.on != p && p < r.k.nextPid
  {
    hide KernelWrites, Respects, Callable, Switched, Step, TaskCreate, NoReuse, RunsAt, Stored, RingStored;
    match e
    case Compute =>
    case Call(op, trampoline) =>
      LegalSize(s.k, op);
      StepPids(s.k, op);
    case Switch(prev) =>
  }

  /** A context stays saved until its task is resumed. */
  lemma {:induction false} SavedStays(states: seq<System>, events: seq<Event>, i: nat, j: nat, p: nat, z: Zone)
    requires Run(states, events, z) && i <= j < |states|
    requires p in states[i].saved && states[i].on != p && p < states[i].k.nextPid
    requires forall m :: i <= m < j ==> !Resumes(states[m], events[m], p)
    ensures p in states[j].saved && states[j].saved[p] == states[i].saved[p]
    ensures states[j].on != p && p < states[j].k.nextPid
    decreases j
  {
    hide Next;
    if i < j {
      SavedStays(states, events, i, j - 1, p, z);
      SavedStep(states[j - 1], events[j - 1], states[j], p, z);
    }
  }

  /** A switch leaves the context of its caller saved, under a pid that is not running. */
  lemma SwitchSaves(s: System, prev: nat, r: System, z: Zone)
    requires SystemInv(s, z) && Next(s, Switch(prev), r, z)
    ensures s.cpu.esp + 4 <= |s.m|
    ensures s.on in r.saved && r.saved[s.on] == Caller(s.m, s.cpu) && r.on != s.on && s.on < r.k.nextPid
  {
    hide Callable, Switched, Inv, AllKept;
    InvParts(s.k, z.lo, z.hi);
    PidsBelow(s.k, prev);
  }

  lemma CreateSaves(s: System, op: Op, trampoline: nat, r: System, z: Zone)
    requires SystemInv(s, z) && Next(s, Call(op, trampoline), r, z) && Created?(s.k, op)
    ensures var p := s.k.nextPid;
      && p in r.saved && r.saved[p] == NewContext(NewEsp(s.k, op), trampoline)
      && r.on != p && p < r.k.nextPid
  {
    hide KernelWrites, Inv, AllKept, Kmalloc, Kfree, NoReuse;
    InvParts(s.k, z.lo, z.hi);
    PidsBelow(s.k, 0);
  }

  /** A switch finds what was saved. */
  lemma ResumesSaved(s: System, prev: nat, r: System, p: nat, z: Zone)
    requires SystemInv(s, z) && Next(s, Switch(prev), r, z) && Resumes(s, Switch(prev), p)
    ensures p in s.saved && r.cpu == s.saved[p]
  {
    hide SystemInv, Next;
    SwitchInv(s, prev, r, z);
  }

  /** Over any run, with tasks created, finished and freed and stacks handed out again: a task that
      called `switch_to` is resumed with exactly the edi, esi, ebx, ebp, stack pointer and return
      address of that call. */
  lemma ResumedExactly(states: seq<System>, events: seq<Event>, i: nat, j: nat, z: Zone)
    requires Run(states, events, z) && SystemInv(states[0], z) && i < j < |events| && events[i].Switch?
    requires Resumes(states[j], events[j], states[i].on)
    requires forall m :: i < m < j ==> !Resumes(states[m], events[m], states[i].on)
    ensures states[i].cpu.esp + 4 <= |states[i].m|
    ensures states[j + 1].cpu == Caller(states[i].m, states[i].cpu)
  {
    hide SystemInv, Next, Resumes;
    RunInv(states, events, i, z);
    NextAt(states, events, i, z);
    SwitchSaves(states[i], events[i].prev, states[i + 1], z);
    SavedStays(states, events, i + 1, j, states[i].on, z);
    RunInv(states, events, j, z);
    NextAt(states, events, j, z);
    OnlySwitchResumes(states[j], events[j], states[i].on);
    ResumesSaved(states[j], events[j].prev, states[j + 1], states[i].on, z);
  }

  lemma NextAt(states: seq<System>, events: seq<Event>, i: nat, z: Zone)
    requires Run(states, events, z) && i < |events|
    ensures Next(states[i], events[i], states[i + 1], z)
  {
  }

  lemma OnlySwitchResumes(s: System, e: Event, p: nat)
    requires Resumes(s, e, p)
    ensures e.Switch?
  {
  }

  /** And a task that has never run starts in the trampoline with its stack fully popped. */
  lemma StartsInTrampoline(states: seq<System>, events: seq<Event>, i: nat, j: nat, z: Zone)
    requires Run(states, events, z) && SystemInv(states[0], z) && i < j < |events|
    requires events[i].Call? && states[i].k.ring != [] && Created?(states[i].k, events[i].op)
    requires Resumes(states[j], events[j], states[i].k.nextPid)
    requires forall m :: i < m < j ==> !Resumes(states[m], events[m], states[i].k.nextPid)
    ensures states[j + 1].cpu ==
      Context(0, 0, 0, 0, NewStack(states[i].k, events[i].op) + 8192, events[i].trampoline)
  {
    hide SystemInv, Next, Resumes, TaskCreate, NewEsp, NewStack;
    StackFull(states[i].k, events[i].op);
    RunInv(states, events, i, z);
    NextAt(states, events, i, z);
    CreateSaves(states[i], events[i].op, events[i].trampoline, states[i + 1], z);
    SavedStays(states, events, i + 1, j, states[i].k.nextPid, z);
    RunInv(states, events, j, z);
    NextAt(states, events, j, z);
    OnlySwitchResumes(states[j], events[j], states[i].k.nextPid);
    ResumesSaved(states[j], events[j].prev, states[j + 1], states[i].k.nextPid, z);
  }
}
