/** Theorems about whole runs of the scheduler: one running task, bounded waiting, each
    finished task freed once, and why freed records must not be handed out again. */
module SchedulerRuns {
  import opened Collections
  import opened Bits
  import opened HeapSpec
  import opened HeapLaws
  import HeapRuns
  import opened HeapOwners
  import opened Scheduler
  import opened SchedulerLaws
  import opened SchedulerMemory

  /** `states[i]` becomes `states[i + 1]` by the legal operation `ops[i]`. */
  ghost predicate Execution(states: seq<Kernel>, ops: seq<Op>) {
    && |states| == |ops| + 1
    && (forall i :: 0 <= i < |states| ==> states[i].ring != [])
    && forall i :: 0 <= i < |ops| ==> Legal(states[i], ops[i]) && states[i + 1] == Step(states[i], ops[i])
  }

  /** `tasking_init` on any heap with room for one record. */
  lemma BootInv(heap: seq<Block>, lo: nat, hi: nat)
    requires WellFormed(heap, lo, hi) && Kmalloc(heap, TASK_SIZE).1 != 0
    ensures Inv(Boot(Kmalloc(heap, TASK_SIZE).0, Kmalloc(heap, TASK_SIZE).1), lo, hi)
  {
    hide Kmalloc, WellFormed, OwnsBlock, Stale;
    KmallocFresh(heap, TASK_SIZE, lo, hi);
    var k := Boot(Kmalloc(heap, TASK_SIZE).0, Kmalloc(heap, TASK_SIZE).1);
    assert TaskOk(k, k.ring[0]) && TaskMemory(k, k.ring[0]);
  }

  lemma {:induction false} ExecutionInv(states: seq<Kernel>, ops: seq<Op>, i: nat, lo: nat, hi: nat)
    requires Execution(states, ops) && Inv(states[0], lo, hi) && i < |states|
    ensures Inv(states[i], lo, hi)
  {
    if i > 0 {
      ExecutionInv(states, ops, i - 1, lo, hi);
      StepInv(states[i - 1], ops[i - 1], lo, hi);
    }
  }

  /** Walking the ring from the current task meets the task with this pid. */
  ghost predicate InRing(k: Kernel, p: nat) {
    exists j :: 0 <= j < |k.ring| && k.ring[j].pid == p
  }

  /** In every state of every run the ring passes through every task ever created, finished
      or not, and exactly the current one is running. */
  lemma OneRunningInFullRing(states: seq<Kernel>, ops: seq<Op>, i: nat, lo: nat, hi: nat)
    requires Execution(states, ops) && Inv(states[0], lo, hi) && i < |states|
    ensures var k := states[i];
      && (forall j :: 0 <= j < |k.ring| ==> (k.ring[j].state.Running? <==> j == 0))
      && (forall p: nat :: 0 <= p < k.nextPid ==> InRing(k, p))
  {
    ExecutionInv(states, ops, i, lo, hi);
    hide MemoryInv, Reaps;
    var k := states[i];
    forall p: nat | 0 <= p < k.nextPid ensures InRing(k, p) {
      EveryPid(k, p);
    }
  }

  lemma EveryPid(k: Kernel, p: nat)
    requires Shape(k) && p < k.nextPid
    ensures InRing(k, p)
  {
    var pids := seq(|k.ring|, i requires 0 <= i < |k.ring| => k.ring[i].pid);
    forall i | 0 <= i < |pids| ensures pids[i] < |pids| {
      assert TaskOk(k, k.ring[i]);
    }
    var j := Pigeonhole(pids, p);
  }

  ghost function Below(n: nat): set<nat> {
    if n == 0 then {} else Below(n - 1) + {n - 1}
  }

  lemma {:induction false} BelowSize(n: nat)
    ensures |Below(n)| == n && forall x: nat :: x in Below(n) <==> x < n
  {
    if n > 0 { BelowSize(n - 1); }
  }

  lemma Pigeonhole(s: seq<nat>, p: nat) returns (j: nat)
    requires Distinct(s) && p < |s| && forall i :: 0 <= i < |s| ==> s[i] < |s|
    ensures j < |s| && s[j] == p
  {
    DistinctSize(s);
    BelowSize(|s|);
    var e, b := Elements(s), Below(|s|);
    assert e <= b;
    if p !in e {
      assert e <= b - {p};
      SubsetSize(e, b - {p});
    }
    j :| 0 <= j < |s| && s[j] == p;
  }

  // ----- Bounded waiting -----

  /** The operation calls `schedule`. */
  predicate Calls(k: Kernel, op: Op) {
    op.Yield? || op.Exit? || (op.Tick? && !k.paused && k.ticks + 1 >= QUANTUM)
  }

  function Schedules(states: seq<Kernel>, ops: seq<Op>): nat
    requires |states| == |ops| + 1
  {
    if ops == [] then 0
    else (if Calls(states[0], ops[0]) then 1 else 0) + Schedules(states[1..], ops[1..])
  }

  function Creates(ops: seq<Op>): nat {
    if ops == [] then 0 else (if ops[0].Create? then 1 else 0) + Creates(ops[1..])
  }

  /** The task runs (`e` is 0) or is ready `e` places ahead. */
  predicate RunsOrWaits(k: Kernel, p: nat, e: nat)
    requires k.ring != []
  {
    e < |k.ring| && k.ring[e].pid == p && (e == 0 || k.ring[e].state.Ready?)
  }

  lemma DispatchWait(k: Kernel, d: nat) returns (e: nat)
    requires k.ring != [] && 0 < d < |k.ring| && k.ring[d].state.Ready?
    ensures Dispatch(k).ring != [] && RunsOrWaits(Dispatch(k), k.ring[d].pid, e) && (e < d || e == 0)
  {
    var i, n := Pick(k.ring, 1), |k.ring|;
    assert 0 < i <= d;
    e := d - i;
    DispatchAt(k, 0);
    DispatchAt(k, e);
  }

  /** While a ready task waits `d` places ahead, every call of `schedule` runs it or brings it
      strictly closer, a `task_create` pushes it back by at most one, and nothing else moves it. */
  lemma WaitStep(k: Kernel, op: Op, d: nat, lo: nat, hi: nat) returns (e: nat)
    requires Inv(k, lo, hi) && Legal(k, op) && 0 < d < |k.ring| && k.ring[d].state.Ready?
    ensures Step(k, op).ring != [] && RunsOrWaits(Step(k, op), k.ring[d].pid, e)
    ensures e + (if Calls(k, op) then 1 else 0) <= d + (if op.Create? then 1 else 0)
  {
    hide Inv, Legal, Dispatch, Kmalloc, Kfree;
    if Calls(k, op) {
      var j := Before(k, op);
      e := DispatchWait(Reap(j), d);
    } else if op.Create? {
      var (r, res) := TaskCreate(k, op.entry);
      e := if res == -1 then d else d + 1;
    } else {
      e := d;
    }
  }

  /** The state in which `schedule` starts during an operation that calls it. */
  function Before(k: Kernel, op: Op): (j: Kernel)
    requires k.ring != [] && Calls(k, op)
    ensures |j.ring| == |k.ring| && j.ring[1..] == k.ring[1..] && j.zombie == k.zombie && j.reaped == k.reaped
    ensures Step(k, op) == Dispatch(Reap(j)) && Reap(j).ring == j.ring
  {
    match op
    case Exit => k.(ring := k.ring[0 := k.ring[0].(state := Terminated)])
    case Tick => k.(ticks := 0)
    case _ => k
  }

  /** A task that is ready `d` places after the current one runs within `d + c` calls of
      `schedule`, where `c` counts the `task_create` calls made meanwhile. */
  lemma {:induction false} BoundedWaiting(states: seq<Kernel>, ops: seq<Op>, d: nat, lo: nat, hi: nat) returns (j: nat)
    requires Execution(states, ops) && Inv(states[0], lo, hi)
    requires 0 < d < |states[0].ring| && states[0].ring[d].state.Ready?
    requires Schedules(states, ops) >= d + Creates(ops)
    ensures 0 < j < |states| && states[j].ring[0].pid == states[0].ring[d].pid
    decreases |ops|
  {
    hide Inv, Legal, Step;
    var e := WaitStep(states[0], ops[0], d, lo, hi);
    if e == 0 {
      j := 1;
    } else {
      StepInv(states[0], ops[0], lo, hi);
      TailExecution(states, ops);
      j := BoundedWaiting(states[1..], ops[1..], e, lo, hi);
      j := j + 1;
    }
  }

  lemma TailExecution(states: seq<Kernel>, ops: seq<Op>)
    requires Execution(states, ops) && ops != []
    ensures Execution(states[1..], ops[1..])
  {
    hide NoReuse, Step;
    forall i | 0 <= i < |ops[1..]|
      ensures Legal(states[1..][i], ops[1..][i]) && states[1..][i + 1] == Step(states[1..][i], ops[1..][i])
    {
      assert ops[1..][i] == ops[i + 1];
    }
  }

  /** Ticks that reach the counter. */
  function LiveTicks(states: seq<Kernel>, ops: seq<Op>): nat
    requires |states| == |ops| + 1
  {
    if ops == [] then 0
    else (if ops[0].Tick? && !states[0].paused then 1 else 0) + LiveTicks(states[1..], ops[1..])
  }

  lemma StepTicks(k: Kernel, op: Op)
    requires k.ring != [] && (op.Malloc? ==> op.n < WORD) && k.ticks < QUANTUM
    ensures op.Tick? && !k.paused && Calls(k, op) ==> k.ticks == QUANTUM - 1 && Step(k, op).ticks == 0
    ensures op.Tick? && !k.paused && !Calls(k, op) ==> Step(k, op).ticks == k.ticks + 1
    ensures !op.Tick? || k.paused ==> Step(k, op).ticks == k.ticks
  {
    hide Kmalloc, Kfree;
  }

  /** The tick counter turns every fifth live tick into a call of `schedule`. */
  lemma {:induction false} TickCounting(states: seq<Kernel>, ops: seq<Op>)
    requires Execution(states, ops) && states[0].ticks < QUANTUM
    ensures QUANTUM * Schedules(states, ops) + QUANTUM > states[0].ticks + LiveTicks(states, ops)
    decreases |ops|
  {
    hide Step;
    if ops != [] {
      assert Legal(states[0], ops[0]);
      StepTicks(states[0], ops[0]);
      TailExecution(states, ops);
      TickCounting(states[1..], ops[1..]);
    }
  }

  /** Hence within 5 * (d + c) ticks received while not paused. */
  lemma BoundedWaitingTicks(states: seq<Kernel>, ops: seq<Op>, d: nat, lo: nat, hi: nat) returns (j: nat)
    requires Execution(states, ops) && Inv(states[0], lo, hi)
    requires 0 < d < |states[0].ring| && states[0].ring[d].state.Ready?
    requires LiveTicks(states, ops) >= QUANTUM * (d + Creates(ops))
    ensures 0 < j < |states| && states[j].ring[0].pid == states[0].ring[d].pid
  {
    TickCounting(states, ops);
    j := BoundedWaiting(states, ops, d, lo, hi);
  }

  // ----- Finished tasks are freed exactly once -----

  /** In every state of every run: no pid has been freed twice, and neither task 0, nor the
      current task, nor a task that can still run has been freed or is waiting to be. */
  lemma ReapSafety(states: seq<Kernel>, ops: seq<Op>, i: nat, lo: nat, hi: nat)
    requires Execution(states, ops) && Inv(states[0], lo, hi) && i < |states|
    ensures var k := states[i];
      && Distinct(k.reaped)
      && forall j :: 0 <= j < |k.ring| && (k.ring[j].pid in k.reaped || k.ring[j].addr == k.zombie) ==>
           j != 0 && k.ring[j].state.Terminated? && k.ring[j].pid != 0 && k.ring[j].stackBase != 0
  {
    ExecutionInv(states, ops, i, lo, hi);
    var k := states[i];
    var idle :| 0 <= idle < |k.ring| && k.ring[idle].pid == 0 && !k.ring[idle].state.Terminated?;
    forall j | 0 <= j < |k.ring| && Finished(k, k.ring[j])
      ensures j != 0 && k.ring[j].state.Terminated? && k.ring[j].pid != 0 && k.ring[j].stackBase != 0
    {
      assert j != 0 && TaskOk(k, k.ring[j]);
      if j < idle { assert k.ring[j].pid != k.ring[idle].pid; }
      if idle < j { assert k.ring[j].pid != k.ring[idle].pid; }
    }
  }

  /** The pending task, seen from its pid. */
  ghost predicate Pending(k: Kernel, p: nat) {
    exists i :: 0 <= i < |k.ring| && k.ring[i].pid == p && k.ring[i].addr == k.zombie && k.zombie != 0
  }

  lemma ExitPends(k: Kernel, lo: nat, hi: nat)
    requires Inv(k, lo, hi) && k.ring[0].pid != 0
    ensures Pending(TaskExit(k), k.ring[0].pid)
  {
    var e := k.(ring := k.ring[0 := k.ring[0].(state := Terminated)]);
    ExitRing(k);
    ReapRing(e);
    DispatchStates(Reap(e));
    var r, i, n := Reap(e), Pick(e.ring, 1), |e.ring|;
    assert TaskOk(k, k.ring[0]);
    DispatchAt(r, To(n, i, 0));
    DispatchAt(r, 0);
  }

  lemma PendingStays(k: Kernel, op: Op, p: nat, lo: nat, hi: nat)
    requires Inv(k, lo, hi) && Legal(k, op) && Pending(k, p) && !Calls(k, op)
    ensures Pending(Step(k, op), p) && Step(k, op).reaped == k.reaped
  {
    hide Inv, NoReuse, Kmalloc, Kfree;
    var i :| 0 <= i < |k.ring| && k.ring[i].pid == p && k.ring[i].addr == k.zombie && k.zombie != 0;
    var r := Step(k, op);
    if op.Create? && TaskCreate(k, op.entry).1 != -1 {
      assert r.ring[if i == 0 then 0 else i + 1] == k.ring[i];
    } else {
      assert r.ring == k.ring;
    }
  }

  lemma PendingFreed(k: Kernel, op: Op, p: nat, lo: nat, hi: nat)
    requires Inv(k, lo, hi) && Legal(k, op) && Pending(k, p) && Calls(k, op)
    ensures Step(k, op).reaped == k.reaped + [p]
  {
    hide Kfree, Step, MemoryInv, Legal;
    var i :| 0 <= i < |k.ring| && k.ring[i].pid == p && k.ring[i].addr == k.zombie && k.zombie != 0;
    var j := Before(k, op);
    IndexOfIs(k.ring, i);
    IndexOfSame(k.ring, j.ring, k.zombie);
    assert i > 0 && j.ring[i] == j.ring[1..][i - 1];
  }

  /** A task that exits is freed by the next call of `schedule`, and not before. */
  lemma {:induction false} FreedAtNextSchedule(states: seq<Kernel>, ops: seq<Op>, i: nat, j: nat, lo: nat, hi: nat)
    requires Execution(states, ops) && Inv(states[0], lo, hi)
    requires i < j < |ops| && ops[i].Exit? && Calls(states[j], ops[j])
    requires forall m :: i < m < j ==> !Calls(states[m], ops[m])
    ensures states[j].reaped == states[i + 1].reaped
    ensures states[j + 1].reaped == states[j].reaped + [states[i].ring[0].pid]
  {
    hide Inv, Step;
    assert Legal(states[i], ops[i]);
    ExecutionInv(states, ops, i, lo, hi);
    StillPending(states, ops, i, j, lo, hi);
    ExecutionInv(states, ops, j, lo, hi);
    assert Legal(states[j], ops[j]);
    PendingFreed(states[j], ops[j], states[i].ring[0].pid, lo, hi);
  }

  lemma StepOf(states: seq<Kernel>, ops: seq<Op>, i: nat)
    requires Execution(states, ops) && i < |ops|
    ensures |states| == |ops| + 1 && states[i].ring != []
    ensures Legal(states[i], ops[i]) && states[i + 1] == Step(states[i], ops[i])
  {
  }

  lemma ExitPendsAt(states: seq<Kernel>, ops: seq<Op>, i: nat, lo: nat, hi: nat)
    requires Execution(states, ops) && Inv(states[0], lo, hi) && i < |ops| && ops[i].Exit?
    ensures |states| == |ops| + 1 && states[i].ring != []
    ensures Pending(states[i + 1], states[i].ring[0].pid)
  {
    hide Inv, Pending, Schedule;
    ExecutionInv(states, ops, i, lo, hi);
    StepOf(states, ops, i);
    ExitPends(states[i], lo, hi);
  }

  lemma PendingStaysAt(states: seq<Kernel>, ops: seq<Op>, m: nat, p: nat, lo: nat, hi: nat)
    requires Execution(states, ops) && Inv(states[0], lo, hi) && m < |ops|
    requires Pending(states[m], p) && !Calls(states[m], ops[m])
    ensures |states| == |ops| + 1 && Pending(states[m + 1], p) && states[m + 1].reaped == states[m].reaped
  {
    hide Inv, Pending, Calls, Step, Legal;
    ExecutionInv(states, ops, m, lo, hi);
    StepOf(states, ops, m);
    PendingStays(states[m], ops[m], p, lo, hi);
  }

  lemma {:induction false} StillPending(states: seq<Kernel>, ops: seq<Op>, i: nat, j: nat, lo: nat, hi: nat)
    requires Execution(states, ops) && |states| == |ops| + 1 && Inv(states[0], lo, hi)
    requires i < j <= |ops| && ops[i].Exit? && states[i].ring != []
    requires forall m :: i < m < j ==> !Calls(states[m], ops[m])
    ensures states[j].reaped == states[i + 1].reaped && Pending(states[j], states[i].ring[0].pid)
    decreases j
  {
    hide Inv, Pending, Execution, Calls;
    if j == i + 1 {
      ExitPendsAt(states, ops, i, lo, hi);
    } else {
      StillPending(states, ops, i, j - 1, lo, hi);
      PendingStaysAt(states, ops, j - 1, states[i].ring[0].pid, lo, hi);
    }
  }
}
