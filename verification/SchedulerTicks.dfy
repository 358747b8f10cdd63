/** When the scheduler is called by the timer, and what no operation changes of a task. */
module SchedulerTicks {
  import opened Bits
  import opened HeapSpec
  import opened Scheduler
  import opened SchedulerLaws
  import opened SchedulerMemory
  import opened SchedulerRuns
  import opened RecordReuse

  // ----- The pause flag -----

  /** The argument of the last call of `tasking_set_paused`, or the initial flag. */
  function LastPause(initially: bool, ops: seq<Op>): bool {
    if ops == [] then initially
    else
      var last := ops[|ops| - 1];
      if last.Pause? then last.paused else LastPause(initially, ops[..|ops| - 1])
  }

  lemma StepPaused(k: Kernel, op: Op)
    requires k.ring != [] && (op.Malloc? ==> op.n < WORD)
    ensures Step(k, op).paused == if op.Pause? then op.paused else k.paused
  {
    hide Kmalloc, Kfree;
  }

  /** Over any run the flag is what `tasking_set_paused` was told last. */
  lemma {:induction false} PausedOverRun(states: seq<Kernel>, ops: seq<Op>, i: nat)
    requires Execution(states, ops) && i < |states|
    ensures states[i].paused == LastPause(states[0].paused, ops[..i])
  {
    hide Step, NoReuse;
    if i > 0 {
      PausedOverRun(states, ops, i - 1);
      StepOf(states, ops, i - 1);
      StepPaused(states[i - 1], ops[i - 1]);
      assert ops[..i][..i - 1] == ops[..i - 1];
    }
  }

  /** So a tick received while paused leaves the whole kernel as it is, the tick counter included. */
  lemma PausedTickDoesNothing(states: seq<Kernel>, ops: seq<Op>, i: nat)
    requires Execution(states, ops) && i < |ops| && ops[i].Tick? && LastPause(states[0].paused, ops[..i])
    ensures states[i + 1] == states[i]
  {
    hide NoReuse, Schedule;
    PausedOverRun(states, ops, i);
    StepOf(states, ops, i);
  }

  /** `tasking_init` leaves the flag clear and the counter at 0. */
  lemma BootUnpaused(heap: seq<Block>, t: nat)
    ensures var k := Boot(heap, t);
      !k.paused && k.ticks == 0 && k.zombie == 0 && k.nextPid == 1 && k.heap == heap && k.reaped == []
      && k.ring == [Task(t, 0, 0, 0, 0, Running)]
  {
  }

  // ----- The quantum -----

  function Ticks(k: Kernel, n: nat): (r: Kernel)
    requires k.ring != []
    ensures r.ring != []
  {
    if n == 0 then k else TaskingTick(Ticks(k, n - 1))
  }

  /** Of five live ticks, counted from 0, the first four move only the counter, and the fifth is one
      call of `schedule`. */
  lemma FifthTickSchedules(k: Kernel)
    requires k.ring != [] && !k.paused && k.ticks == 0
    ensures forall n: nat :: n <= 4 ==> Ticks(k, n) == k.(ticks := n)
    ensures Ticks(k, 5) == Schedule(k)
  {
    hide Schedule;
    assert Ticks(k, 1) == k.(ticks := 1);
    assert Ticks(k, 2) == k.(ticks := 2);
    assert Ticks(k, 3) == k.(ticks := 3);
    assert Ticks(k, 4) == k.(ticks := 4);
    assert k.(ticks := 4).(ticks := 0) == k;
    forall n: nat | n <= 4 ensures Ticks(k, n) == k.(ticks := n) {
      assert n == 0 || n == 1 || n == 2 || n == 3 || n == 4;
    }
  }

  // ----- What stays with a task -----

  lemma StepKeepsTask(k: Kernel, op: Op, t: Task)
    requires k.ring != [] && (op.Malloc? ==> op.n < WORD) && Linked(k.ring, t)
    ensures Linked(Step(k, op).ring, t)
  {
    hide Kmalloc, Kfree, Schedule, TaskExit;
    match op
    case Create(entry) =>
      var j :| 0 <= j < |k.ring| && k.ring[j] == t.(state := k.ring[j].state);
      var r := TaskCreate(k, entry);
      var i := if r.1 == -1 || j == 0 then j else j + 1;
      assert r.0.ring[i] == t.(state := r.0.ring[i].state);
    case Exit => ExitKeeps(k, t);
    case Yield => ScheduleKeeps(k, t);
    case Tick =>
      if !k.paused && k.ticks + 1 >= QUANTUM { ScheduleKeeps(k.(ticks := 0), t); }
    case _ =>
  }

  lemma StepKeepsAt(states: seq<Kernel>, ops: seq<Op>, i: nat, t: Task)
    requires Execution(states, ops) && i < |ops| && |states| == |ops| + 1 && Linked(states[i].ring, t)
    ensures Linked(states[i + 1].ring, t)
  {
    hide Step, NoReuse, Linked;
    StepOf(states, ops, i);
    StepKeepsTask(states[i], ops[i], t);
  }

  /** Over any run every task keeps its pid, its record, its stack, its entry point and its saved
      stack pointer; only its state changes. */
  lemma {:induction false} TaskKept(states: seq<Kernel>, ops: seq<Op>, i: nat, j: nat, t: Task)
    requires Execution(states, ops) && |states| == |ops| + 1 && i <= j < |states| && t in states[i].ring
    ensures Linked(states[j].ring, t)
    decreases j
  {
    hide Execution, Linked;
    if i == j {
      InRingLinked(states[i].ring, t);
    } else {
      TaskKept(states, ops, i, j - 1, t);
      StepKeepsAt(states, ops, j - 1, t);
    }
  }

  lemma InRingLinked(ring: seq<Task>, t: Task)
    requires t in ring
    ensures Linked(ring, t)
  {
    var j :| 0 <= j < |ring| && ring[j] == t;
    assert ring[j] == t.(state := ring[j].state);
  }
}
