/** What every operation of the scheduler keeps of the ring. */
module SchedulerLaws {
  import opened Collections
  import opened Bits
  import opened HeapSpec
  import opened HeapLaws
  import opened HeapRuns
  import opened Scheduler

  // ----- The ring invariant -----

  /** Every task ever created is in the ring exactly once, under its own address. */
  ghost predicate Shape(k: Kernel) {
    && k.ring != [] && |k.ring| == k.nextPid && k.ticks < QUANTUM
    && (forall i, j :: 0 <= i < j < |k.ring| ==>
          k.ring[i].pid != k.ring[j].pid && k.ring[i].addr != k.ring[j].addr)
    && forall i :: 0 <= i < |k.ring| ==> TaskOk(k, k.ring[i])
  }

  ghost predicate TaskOk(k: Kernel, t: Task) {
    t.addr > 0 && t.addr % 4 == 0 && t.pid < k.nextPid && (t.pid == 0 <==> t.stackBase == 0)
  }

  /** Exactly the current task is running; a task is finished exactly when it has been freed
      or is the pending one; task 0 is never finished. */
  ghost predicate States(k: Kernel)
    requires k.ring != []
  {
    && k.ring[0].state.Running?
    && !Finished(k, k.ring[0])
    && Waiting(k)
  }

  ghost predicate Finished(k: Kernel, t: Task) {
    t.pid in k.reaped || t.addr == k.zombie
  }

  ghost predicate Waiting(k: Kernel)
    requires k.ring != []
  {
    && (forall i :: 0 < i < |k.ring| ==> !k.ring[i].state.Running?)
    && (forall i :: 0 < i < |k.ring| ==> (k.ring[i].state.Terminated? <==> Finished(k, k.ring[i])))
    && exists i :: 0 <= i < |k.ring| && k.ring[i].pid == 0 && !k.ring[i].state.Terminated?
  }

  /** Freed at most once, and still in the ring. */
  ghost predicate Reaps(k: Kernel) {
    && Distinct(k.reaped)
    && (forall p :: p in k.reaped ==> exists i :: 0 <= i < |k.ring| && k.ring[i].pid == p)
    && (k.zombie != 0 ==> IndexOf(k.ring, k.zombie) < |k.ring|)
    && forall i :: 0 <= i < |k.ring| && k.ring[i].addr == k.zombie ==> k.ring[i].pid !in k.reaped
  }

  ghost predicate RingInv(k: Kernel) {
    Shape(k) && States(k) && Reaps(k)
  }

  /** The state inside `task_exit`, once the current task has been marked. */
  ghost predicate Exiting(k: Kernel) {
    && Shape(k) && Reaps(k) && Waiting(k)
    && k.ring[0].state.Terminated? && !Finished(k, k.ring[0])
  }

  // ----- Reap -----

  lemma IndexOfIs(ring: seq<Task>, i: nat)
    requires i < |ring| && forall j :: 0 <= j < |ring| && j != i ==> ring[j].addr != ring[i].addr
    ensures IndexOf(ring, ring[i].addr) == i
  {
    var k := IndexOf(ring, ring[i].addr);
  }

  lemma ReapRing(k: Kernel)
    requires Shape(k) && Reaps(k) && Waiting(k) && !Finished(k, k.ring[0])
    ensures var r := Reap(k);
      && r.ring == k.ring && Shape(r) && Reaps(r) && Waiting(r) && !Finished(r, r.ring[0])
      && r.zombie == 0
      && r.reaped == k.reaped + (if k.zombie == 0 then [] else [k.ring[IndexOf(k.ring, k.zombie)].pid])
  {
    hide Kfree;
    var r := Reap(k);
    if k.zombie != 0 {
      var z := IndexOf(k.ring, k.zombie);
      ReapStates(k, r, z);
      forall p | p in r.reaped ensures exists i :: 0 <= i < |r.ring| && r.ring[i].pid == p {
        if p == k.ring[z].pid { assert r.ring[z].pid == p; }
      }
    }
  }

  lemma ReapStates(k: Kernel, r: Kernel, z: nat)
    requires Shape(k) && Waiting(k) && z < |k.ring| && k.zombie != 0 && k.ring[z].addr == k.zombie
    requires r.ring == k.ring && r.reaped == k.reaped + [k.ring[z].pid] && r.zombie == 0
    requires !Finished(k, k.ring[0])
    ensures Waiting(r) && !Finished(r, r.ring[0])
  {
    forall i | 0 <= i < |k.ring| ensures Finished(k, k.ring[i]) <==> Finished(r, r.ring[i]) {
      assert TaskOk(k, k.ring[i]);
      if i < z { assert k.ring[i].addr != k.ring[z].addr && k.ring[i].pid != k.ring[z].pid; }
      if z < i { assert k.ring[i].addr != k.ring[z].addr && k.ring[i].pid != k.ring[z].pid; }
    }
  }

  // ----- Dispatch -----

  /** Where the task at index `j` of the rotated ring came from. */
  function From(n: nat, i: nat, j: nat): nat
    requires j < n && i <= n
  {
    if i + j < n then i + j else i + j - n
  }

  function Relabel(ring: seq<Task>, i: nat, o: nat): Task
    requires i < |ring| && o < |ring|
  {
    if o == i then ring[o].(state := Running)
    else if o == 0 && ring[0].state.Running? then ring[0].(state := Ready)
    else ring[o]
  }

  lemma DispatchAt(k: Kernel, j: nat)
    requires k.ring != [] && j < |k.ring| && Pick(k.ring, 1) != 0
    ensures var i, n := Pick(k.ring, 1), |k.ring|;
      |Dispatch(k).ring| == n && Dispatch(k).ring[j] == Relabel(k.ring, i, From(n, i, j))
  {
  }

  /** Where the task at index `o` goes. */
  function To(n: nat, i: nat, o: nat): nat
    requires o < n && i <= n
  {
    if o < i then o + n - i else o - i
  }

  lemma DispatchKeys(k: Kernel)
    requires Shape(k)
    ensures Shape(Dispatch(k))
  {
    var d, i, n := Dispatch(k), Pick(k.ring, 1), |k.ring|;
    if i != 0 {
      forall j | 0 <= j < n ensures |d.ring| == n && d.ring[j] == Relabel(k.ring, i, From(n, i, j)) {
        DispatchAt(k, j);
      }
      DispatchAt(k, 0);
      RelabelKeys(k, d, i);
    }
  }

  lemma RelabelKeys(k: Kernel, d: Kernel, i: nat)
    requires Shape(k) && i < |k.ring| == |d.ring| && d.nextPid == k.nextPid && d.ticks == k.ticks
    requires forall j :: 0 <= j < |d.ring| ==> d.ring[j] == Relabel(k.ring, i, From(|k.ring|, i, j))
    ensures Shape(d)
  {
    var n := |k.ring|;
    forall j | 0 <= j < n ensures TaskOk(d, d.ring[j]) {
      assert TaskOk(k, k.ring[From(n, i, j)]);
    }
    forall j, l | 0 <= j < l < n ensures d.ring[j].pid != d.ring[l].pid && d.ring[j].addr != d.ring[l].addr {
      var a, b := From(n, i, j), From(n, i, l);
      assert a != b;
    }
  }

  /** From a running or exiting task, dispatching restores the full invariant. */
  lemma DispatchStates(k: Kernel)
    requires Shape(k) && Waiting(k) && Reaps(k) && k.zombie == 0 && !Finished(k, k.ring[0])
    requires !k.ring[0].state.Ready?
    ensures k.ring[0].state.Terminated? ==> Pick(k.ring, 1) != 0
    ensures States(Dispatch(k)) && Reaps(Dispatch(k))
  {
    var d, i, n := Dispatch(k), Pick(k.ring, 1), |k.ring|;
    var idle :| 0 <= idle < n && k.ring[idle].pid == 0 && !k.ring[idle].state.Terminated?;
    if i != 0 {
      forall j | 0 <= j < n ensures |d.ring| == n && d.ring[j] == Relabel(k.ring, i, From(n, i, j)) {
        DispatchAt(k, j);
      }
      DispatchAt(k, 0);
      DispatchWaiting(k, d, i, idle);
      DispatchReaps(k, d, i);
    }
  }

  lemma DispatchWaiting(k: Kernel, d: Kernel, i: nat, idle: nat)
    requires Shape(k) && Waiting(k) && Reaps(k) && k.zombie == 0 && !Finished(k, k.ring[0])
    requires !k.ring[0].state.Ready?
    requires 0 < i < |k.ring| && !k.ring[i].state.Terminated? && d.reaped == k.reaped && |d.ring| == |k.ring|
    requires d.zombie == if k.ring[0].state.Terminated? then k.ring[0].addr else 0
    requires forall j :: 0 <= j < |d.ring| ==> d.ring[j] == Relabel(k.ring, i, From(|k.ring|, i, j))
    requires idle < |k.ring| && k.ring[idle].pid == 0 && !k.ring[idle].state.Terminated?
    ensures States(d)
  {
    var n := |k.ring|;
    forall j | 0 <= j < n ensures
      && (j > 0 ==> !d.ring[j].state.Running?)
      && (d.ring[j].state.Terminated? <==> Finished(d, d.ring[j]))
    {
      var o := From(n, i, j);
      assert TaskOk(k, k.ring[o]);
      assert o > 0 ==> k.ring[0].addr != k.ring[o].addr;
      assert o > 0 ==> (k.ring[o].state.Terminated? <==> Finished(k, k.ring[o]));
    }
    assert d.ring[To(n, i, idle)].pid == 0;
  }

  lemma DispatchReaps(k: Kernel, d: Kernel, i: nat)
    requires Shape(k) && Reaps(k) && k.zombie == 0 && !Finished(k, k.ring[0])
    requires 0 < i < |k.ring| && d.reaped == k.reaped && |d.ring| == |k.ring|
    requires d.zombie == if k.ring[0].state.Terminated? then k.ring[0].addr else 0
    requires forall j :: 0 <= j < |d.ring| ==> d.ring[j] == Relabel(k.ring, i, From(|k.ring|, i, j))
    ensures Reaps(d)
  {
    var n := |k.ring|;
    forall p | p in d.reaped ensures exists j :: 0 <= j < n && d.ring[j].pid == p {
      var o :| 0 <= o < n && k.ring[o].pid == p;
      assert d.ring[To(n, i, o)].pid == p;
    }
    assert d.ring[To(n, i, 0)].addr == k.ring[0].addr;
    forall j | 0 <= j < n && d.ring[j].addr == d.zombie ensures d.ring[j].pid !in d.reaped {
      assert TaskOk(k, k.ring[From(n, i, j)]);
    }
  }

  // ----- Every operation -----

  lemma ScheduleRing(k: Kernel)
    requires RingInv(k) || Exiting(k)
    ensures RingInv(Schedule(k)) && Schedule(k).zombie == (if Exiting(k) then k.ring[0].addr else 0)
  {
    ReapRing(k);
    DispatchKeys(Reap(k));
    DispatchStates(Reap(k));
  }

  lemma ExitRing(k: Kernel)
    requires RingInv(k) && k.ring[0].pid != 0
    ensures Exiting(k.(ring := k.ring[0 := k.ring[0].(state := Terminated)]))
  {
    hide Shape, Reaps;
    ExitShape(k);
    ExitReaps(k);
    var e := k.(ring := k.ring[0 := k.ring[0].(state := Terminated)]);
    var i :| 0 <= i < |k.ring| && k.ring[i].pid == 0 && !k.ring[i].state.Terminated?;
    assert e.ring[i].pid == 0;
  }

  lemma ExitShape(k: Kernel)
    requires Shape(k)
    ensures k.ring != [] && Shape(k.(ring := k.ring[0 := k.ring[0].(state := Terminated)]))
  {
    var e := k.(ring := k.ring[0 := k.ring[0].(state := Terminated)]);
    forall i | 0 <= i < |e.ring| ensures TaskOk(e, e.ring[i]) && e.ring[i].addr == k.ring[i].addr {
      assert TaskOk(k, k.ring[i]);
    }
  }

  lemma ExitReaps(k: Kernel)
    requires k.ring != [] && Reaps(k)
    ensures Reaps(k.(ring := k.ring[0 := k.ring[0].(state := Terminated)]))
  {
    var e := k.(ring := k.ring[0 := k.ring[0].(state := Terminated)]);
    forall p | p in e.reaped ensures exists i :: 0 <= i < |e.ring| && e.ring[i].pid == p {
      var i :| 0 <= i < |k.ring| && k.ring[i].pid == p;
      assert e.ring[i].pid == p;
    }
    IndexOfSame(k.ring, e.ring, k.zombie);
  }

  lemma {:induction false} IndexOfSame(r: seq<Task>, r': seq<Task>, a: nat)
    requires |r| == |r'| && forall i :: 0 <= i < |r| ==> r[i].addr == r'[i].addr
    ensures IndexOf(r, a) == IndexOf(r', a)
  {
    if r != [] { IndexOfSame(r[1..], r'[1..], a); }
  }

  /** `task_create` adds one ring node right after the current task and nothing else. */
  lemma CreateRing(k: Kernel, t: Task, r: Kernel)
    requires RingInv(k) && t.pid == k.nextPid && t.state.Ready? && t.addr > 0 && t.addr % 4 == 0 && t.stackBase > 0
    requires forall i :: 0 <= i < |k.ring| ==> k.ring[i].addr != t.addr
    requires r.ring == [k.ring[0], t] + k.ring[1..] && r.nextPid == k.nextPid + 1
    requires r.zombie == k.zombie && r.reaped == k.reaped && r.ticks == k.ticks
    ensures RingInv(r)
  {
    CreateReaps(k, t, r);
    forall i | 0 <= i < |r.ring| ensures r.ring[i] == CreatedAt(k, t, i) {
    }
    CreateKeys(k, t, r);
    CreateStates(k, t, r);
  }

  function CreatedAt(k: Kernel, t: Task, i: nat): Task
    requires k.ring != [] && i <= |k.ring|
  {
    if i == 1 then t else k.ring[if i == 0 then 0 else i - 1]
  }

  lemma CreateKeys(k: Kernel, t: Task, r: Kernel)
    requires Shape(k) && t.pid == k.nextPid && t.addr > 0 && t.addr % 4 == 0 && t.stackBase > 0
    requires forall i :: 0 <= i < |k.ring| ==> k.ring[i].addr != t.addr
    requires |r.ring| == |k.ring| + 1 && r.nextPid == k.nextPid + 1 && r.ticks == k.ticks
    requires forall i :: 0 <= i < |r.ring| ==> r.ring[i] == CreatedAt(k, t, i)
    ensures Shape(r)
  {
    forall i | 0 <= i < |k.ring| ensures TaskOk(k, k.ring[i]) {
    }
  }

  lemma CreateStates(k: Kernel, t: Task, r: Kernel)
    requires Shape(k) && States(k) && t.pid == k.nextPid && t.state.Ready? && t.addr > 0
    requires |r.ring| == |k.ring| + 1 && r.zombie == k.zombie && r.reaped == k.reaped
    requires forall i :: 0 <= i < |r.ring| ==> r.ring[i] == CreatedAt(k, t, i)
    requires !Finished(r, t)
    ensures States(r)
  {
    var idle :| 0 <= idle < |k.ring| && k.ring[idle].pid == 0 && !k.ring[idle].state.Terminated?;
    assert r.ring[if idle == 0 then 0 else idle + 1].pid == 0;
  }

  lemma CreateReaps(k: Kernel, t: Task, r: Kernel)
    requires RingInv(k) && t.pid == k.nextPid
    requires forall i :: 0 <= i < |k.ring| ==> k.ring[i].addr != t.addr
    requires r.ring == [k.ring[0], t] + k.ring[1..]
    requires r.zombie == k.zombie && r.reaped == k.reaped
    ensures Reaps(r) && t.pid !in r.reaped && (t.addr > 0 ==> t.addr != r.zombie)
  {
    hide States, Finished;
    forall p | p in r.reaped ensures p < k.nextPid && exists i :: 0 <= i < |r.ring| && r.ring[i].pid == p {
      var i :| 0 <= i < |k.ring| && k.ring[i].pid == p;
      assert TaskOk(k, k.ring[i]);
      assert r.ring[if i == 0 then 0 else i + 1].pid == p;
    }
    var z := IndexOf(k.ring, k.zombie);
    if k.zombie != 0 {
      assert r.ring[if z == 0 then 0 else z + 1].addr == k.zombie;
    }
    forall i | 0 <= i < |r.ring| && r.ring[i].addr == r.zombie ensures r.ring[i].pid !in r.reaped {
      if i != 1 { assert r.ring[i] == k.ring[if i == 0 then 0 else i - 1]; }
    }
  }
}
