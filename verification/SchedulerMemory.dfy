/** Who owns which heap memory while tasks come and go, and the invariant of every run. */
module SchedulerMemory {
  import opened Bits
  import opened HeapSpec
  import opened HeapLaws
  import HeapRuns
  import opened HeapOwners
  import opened Scheduler
  import opened SchedulerLaws

  /** A task that has not been freed owns its record and its stack; a freed record still
      lies in free memory. */
  ghost predicate TaskMemory(k: Kernel, t: Task) {
    if IsReaped(k, t) then Stale(k.heap, t.addr, TASK_SIZE)
    else
      && OwnsBlock(k.heap, t.addr, TASK_SIZE)
      && (t.stackBase != 0 ==> OwnsBlock(k.heap, t.stackBase, TASK_STACK_SIZE))
  }

  /** No pointer has two owners. */
  ghost predicate Separate(k: Kernel) {
    forall i, j :: 0 <= i < |k.ring| && 0 <= j < |k.ring| && !IsReaped(k, k.ring[i]) && !IsReaped(k, k.ring[j]) ==>
      && (i != j && k.ring[i].stackBase != 0 ==> k.ring[i].stackBase != k.ring[j].stackBase)
      && k.ring[i].addr != k.ring[j].stackBase
  }

  /** No two records overlap, freed ones included. */
  ghost predicate Apart(ring: seq<Task>) {
    forall i, j :: 0 <= i < j < |ring| ==> Disjoint(ring[i].addr, TASK_SIZE, ring[j].addr, TASK_SIZE)
  }

  ghost predicate MemoryInv(k: Kernel, lo: nat, hi: nat) {
    && WellFormed(k.heap, lo, hi)
    && (forall i :: 0 <= i < |k.ring| ==> TaskMemory(k, k.ring[i]))
    && Separate(k)
    && Apart(k.ring)
  }

  ghost predicate Inv(k: Kernel, lo: nat, hi: nat) {
    RingInv(k) && MemoryInv(k, lo, hi)
  }

  // ----- schedule -----

  lemma ReapMemory(k: Kernel, lo: nat, hi: nat)
    requires Shape(k) && Reaps(k) && MemoryInv(k, lo, hi)
    ensures MemoryInv(Reap(k), lo, hi)
  {
    hide Kfree, Stale, OwnsBlock, WellFormed, Freeable;
    var z := IndexOf(k.ring, k.zombie);
    if k.zombie != 0 {
      var t, r := k.ring[z], Reap(k);
      var h := Kfree(k.heap, t.stackBase);
      assert TaskMemory(k, t) && TaskOk(k, t) && !IsReaped(k, t);
      OwnedFreeable(k.heap, t.stackBase, TASK_STACK_SIZE);
      OwnedFreeable(k.heap, t.addr, TASK_SIZE);
      FreeTwice(k.heap, t.stackBase, t.addr, lo, hi);
      forall i | 0 <= i < |k.ring| ensures TaskMemory(r, k.ring[i]) {
        ReapTaskMemory(k, z, i, lo, hi);
      }
    }
  }

  lemma FreeTwice(heap: seq<Block>, p: nat, q: nat, lo: nat, hi: nat)
    requires WellFormed(heap, lo, hi) && Freeable(heap, p) && OwnsBlock(heap, q, TASK_SIZE) && p != q
    ensures WellFormed(Kfree(heap, p), lo, hi) && OwnsBlock(Kfree(heap, p), q, TASK_SIZE)
    ensures Freeable(Kfree(heap, p), q)
    ensures WellFormed(Kfree(Kfree(heap, p), q), lo, hi)
  {
    hide Kfree, WellFormed;
    KfreeOwns(heap, p, q, TASK_SIZE, lo, hi);
    HeapRuns.StepWellFormed(Kfree(heap, p), HeapRuns.Free(q), lo, hi);
  }

  lemma ReapTaskMemory(k: Kernel, z: nat, i: nat, lo: nat, hi: nat)
    requires Shape(k) && Reaps(k) && MemoryInv(k, lo, hi) && k.zombie != 0
    requires z == IndexOf(k.ring, k.zombie) && z < |k.ring| && i < |k.ring|
    ensures TaskMemory(Reap(k), k.ring[i])
  {
    hide Kfree, Stale, OwnsBlock, WellFormed, Freeable;
    var t, u, r := k.ring[z], k.ring[i], Reap(k);
    var h := Kfree(k.heap, t.stackBase);
    assert TaskMemory(k, t) && TaskMemory(k, u) && TaskOk(k, t);
    OwnedFreeable(k.heap, t.stackBase, TASK_STACK_SIZE);
    FreeTwice(k.heap, t.stackBase, t.addr, lo, hi);
    if IsReaped(k, u) {
      KfreeStale(k.heap, t.stackBase, u.addr, TASK_SIZE, lo, hi);
      KfreeStale(h, t.addr, u.addr, TASK_SIZE, lo, hi);
    } else if i == z {
      KfreeStale(h, t.addr, t.addr, TASK_SIZE, lo, hi);
      assert IsReaped(r, u);
    } else {
      assert u.pid != t.pid && u.addr != t.addr;
      KeepOwned(k.heap, t.stackBase, t.addr, u.addr, TASK_SIZE, lo, hi);
      if u.stackBase != 0 {
        KeepOwned(k.heap, t.stackBase, t.addr, u.stackBase, TASK_STACK_SIZE, lo, hi);
      }
    }
  }

  lemma KeepOwned(heap: seq<Block>, p: nat, p': nat, q: nat, size: nat, lo: nat, hi: nat)
    requires WellFormed(heap, lo, hi) && Freeable(heap, p) && Freeable(Kfree(heap, p), p')
    requires q != p && q != p' && OwnsBlock(heap, q, size)
    ensures OwnsBlock(Kfree(Kfree(heap, p), p'), q, size)
  {
    hide Kfree, WellFormed;
    KfreeOwns(heap, p, q, size, lo, hi);
    KfreeOwns(Kfree(heap, p), p', q, size, lo, hi);
  }

  lemma DispatchMemory(k: Kernel, lo: nat, hi: nat)
    requires k.ring != [] && MemoryInv(k, lo, hi)
    ensures MemoryInv(Dispatch(k), lo, hi)
  {
    var d, i, n := Dispatch(k), Pick(k.ring, 1), |k.ring|;
    if i != 0 {
      forall j | 0 <= j < n ensures |d.ring| == n && d.ring[j] == Relabel(k.ring, i, From(n, i, j)) {
        DispatchAt(k, j);
      }
      DispatchAt(k, 0);
      RelabelMemory(k, d, i, lo, hi);
    }
  }

  lemma RelabelMemory(k: Kernel, d: Kernel, i: nat, lo: nat, hi: nat)
    requires MemoryInv(k, lo, hi) && i < |k.ring| == |d.ring| && d.heap == k.heap && d.reaped == k.reaped
    requires forall j :: 0 <= j < |d.ring| ==> d.ring[j] == Relabel(k.ring, i, From(|k.ring|, i, j))
    ensures MemoryInv(d, lo, hi)
  {
    hide WellFormed, Stale, OwnsBlock;
    RelabelApart(k, d, i);
    hide Apart;
    var n := |k.ring|;
    forall j | 0 <= j < n ensures TaskMemory(d, d.ring[j]) {
      assert TaskMemory(k, k.ring[From(n, i, j)]);
    }
    forall j, l | 0 <= j < n && 0 <= l < n && !IsReaped(d, d.ring[j]) && !IsReaped(d, d.ring[l])
      ensures j != l && d.ring[j].stackBase != 0 ==> d.ring[j].stackBase != d.ring[l].stackBase
      ensures d.ring[j].addr != d.ring[l].stackBase
    {
      var a, b := From(n, i, j), From(n, i, l);
      assert !IsReaped(k, k.ring[a]) && !IsReaped(k, k.ring[b]);
    }
  }

  lemma RelabelApart(k: Kernel, d: Kernel, i: nat)
    requires i < |k.ring| == |d.ring| && Apart(k.ring)
    requires forall j :: 0 <= j < |d.ring| ==> d.ring[j] == Relabel(k.ring, i, From(|k.ring|, i, j))
    ensures Apart(d.ring)
  {
    var n := |k.ring|;
    forall j, l | 0 <= j < l < n ensures Disjoint(d.ring[j].addr, TASK_SIZE, d.ring[l].addr, TASK_SIZE) {
      var a, b := From(n, i, j), From(n, i, l);
      assert d.ring[j].addr == k.ring[a].addr && d.ring[l].addr == k.ring[b].addr;
    }
  }

  lemma ScheduleInv(k: Kernel, lo: nat, hi: nat)
    requires (RingInv(k) || Exiting(k)) && MemoryInv(k, lo, hi)
    ensures Inv(Schedule(k), lo, hi)
  {
    ScheduleRing(k);
    ReapRing(k);
    ReapMemory(k, lo, hi);
    DispatchMemory(Reap(k), lo, hi);
  }

  // ----- task_create -----

  /** A failing `task_create`, at either allocation, leaves heap list, ring and next pid as they were.
      What it leaves in the memory of the ring is another matter: see FreedRecords. */
  lemma CreateAllOrNothing(k: Kernel, entry: nat, lo: nat, hi: nat)
    requires k.ring != [] && WellFormed(k.heap, lo, hi)
    ensures TaskCreate(k, entry).1 == -1 ==> TaskCreate(k, entry).0 == k
    ensures TaskCreate(k, entry).1 != -1 ==> TaskCreate(k, entry).1 == k.nextPid
  {
    hide Kmalloc, Kfree, WellFormed;
    var (h1, t) := Kmalloc(k.heap, TASK_SIZE);
    var _ := KmallocStep(k.heap, TASK_SIZE, lo, hi);
    if t != 0 {
      var _ := KmallocStep(h1, TASK_STACK_SIZE, lo, hi);
      HeapRuns.RoundTrip(k.heap, TASK_SIZE, lo, hi);
    }
  }

  /** A successful one adds exactly two live blocks, one ring node and a fresh pid. The new task is
      ready, right after the current one, with the entry point given and a frame of 20 bytes at the
      top of its own stack of 8192. */
  lemma CreateAdds(k: Kernel, entry: nat, lo: nat, hi: nat) returns (record: Block, stack: Block)
    requires k.ring != [] && WellFormed(k.heap, lo, hi) && TaskCreate(k, entry).1 != -1
    ensures var r := TaskCreate(k, entry).0;
      && r == k.(nextPid := k.nextPid + 1, heap := r.heap, ring := r.ring)
      && |r.ring| == |k.ring| + 1 && r.ring[0] == k.ring[0] && r.ring[2..] == k.ring[1..]
      && r.ring[1].pid == k.nextPid && r.ring[1].entry == entry && r.ring[1].state == Ready
      && r.ring[1].addr == record.Payload() && r.ring[1].stackBase == stack.Payload()
      && r.ring[1].esp + 20 == stack.Payload() + 8192
      && record !in Live(k.heap) && stack !in Live(k.heap) && record != stack
      && Live(r.heap) == Live(k.heap) + {record, stack}
      && record.size >= 24 && stack.size >= 8192
  {
    hide Kmalloc, Kfree, WellFormed, AlignUp;
    var (h1, t) := Kmalloc(k.heap, TASK_SIZE);
    record := KmallocStep(k.heap, TASK_SIZE, lo, hi);
    stack := KmallocStep(h1, TASK_STACK_SIZE, lo, hi);
    AlignUp8(TASK_SIZE);
    AlignUp8(TASK_STACK_SIZE);
  }

  /** The two allocations of a successful `task_create` belong to nobody else. */
  lemma CreateFresh(k: Kernel, entry: nat, i: nat, lo: nat, hi: nat)
    requires Inv(k, lo, hi) && Legal(k, Op.Create(entry)) && TaskCreate(k, entry).1 != -1 && i < |k.ring|
    ensures var r, u := TaskCreate(k, entry).0, k.ring[i]; var t := r.ring[1];
      && t.addr != u.addr
      && TaskMemory(r, u)
      && (!IsReaped(k, u) ==>
          t.stackBase != u.stackBase && t.stackBase != u.addr && t.addr != u.stackBase)
  {
    hide Kmalloc, Kfree, WellFormed, OwnsBlock, Stale, AlignUp;
    var (h1, t) := Kmalloc(k.heap, TASK_SIZE);
    var h2 := Kmalloc(h1, TASK_STACK_SIZE).0;
    var u := k.ring[i];
    assert TaskMemory(k, u) && TaskOk(k, u);
    KmallocFresh(k.heap, TASK_SIZE, lo, hi);
    if IsReaped(k, u) {
      assert Stale(h1, u.addr, TASK_SIZE) && Stale(h2, u.addr, TASK_SIZE);
    } else {
      TwoAllocs(k.heap, u.addr, TASK_SIZE, lo, hi);
      if u.stackBase != 0 {
        TwoAllocs(k.heap, u.stackBase, TASK_STACK_SIZE, lo, hi);
      }
    }
  }

  lemma TwoAllocs(heap: seq<Block>, q: nat, size: nat, lo: nat, hi: nat)
    requires WellFormed(heap, lo, hi) && OwnsBlock(heap, q, size)
    ensures var (h1, t) := Kmalloc(heap, TASK_SIZE); var (h2, s) := Kmalloc(h1, TASK_STACK_SIZE);
      t != q && s != q && OwnsBlock(h2, q, size)
  {
    hide Kmalloc, WellFormed, AlignUp;
    KmallocOwns(heap, TASK_SIZE, q, size, lo, hi);
    var _ := KmallocStep(heap, TASK_SIZE, lo, hi);
    KmallocOwns(Kmalloc(heap, TASK_SIZE).0, TASK_STACK_SIZE, q, size, lo, hi);
  }

  /** The new task owns its own two blocks. */
  lemma CreateOwn(k: Kernel, entry: nat, lo: nat, hi: nat)
    requires WellFormed(k.heap, lo, hi) && k.ring != [] && TaskCreate(k, entry).1 != -1
    ensures var r := TaskCreate(k, entry).0; var t := r.ring[1];
      && WellFormed(r.heap, lo, hi) && t.addr > 0 && t.stackBase > 0 && t.addr != t.stackBase
      && t.addr % 4 == 0 && t.stackBase % 4 == 0
      && OwnsBlock(r.heap, t.addr, TASK_SIZE) && OwnsBlock(r.heap, t.stackBase, TASK_STACK_SIZE)
  {
    hide Kmalloc, Kfree, WellFormed, OwnsBlock, AlignUp;
    var (h1, t) := Kmalloc(k.heap, TASK_SIZE);
    KmallocFresh(k.heap, TASK_SIZE, lo, hi);
    KmallocFresh(h1, TASK_STACK_SIZE, lo, hi);
    KmallocOwns(h1, TASK_STACK_SIZE, t, TASK_SIZE, lo, hi);
  }

  lemma RecordsApart(r: Kernel, t: Task, u: Task, lo: nat, hi: nat)
    requires WellFormed(r.heap, lo, hi) && OwnsBlock(r.heap, t.addr, TASK_SIZE) && TaskMemory(r, u)
    requires t.addr != u.addr
    ensures Disjoint(t.addr, TASK_SIZE, u.addr, TASK_SIZE)
  {
    OwnedApart(r.heap, t.addr, TASK_SIZE, u.addr, TASK_SIZE, lo, hi);
  }

  lemma CreateInv(k: Kernel, entry: nat, lo: nat, hi: nat)
    requires Inv(k, lo, hi) && Legal(k, Op.Create(entry))
    ensures Inv(TaskCreate(k, entry).0, lo, hi)
  {
    var (r, res) := TaskCreate(k, entry);
    CreateAllOrNothing(k, entry, lo, hi);
    if res != -1 {
      CreateOwn(k, entry, lo, hi);
      forall i | 0 <= i < |k.ring|
        ensures r.ring[1].addr != k.ring[i].addr && TaskMemory(r, k.ring[i])
        ensures Disjoint(r.ring[1].addr, TASK_SIZE, k.ring[i].addr, TASK_SIZE)
        ensures !IsReaped(k, k.ring[i]) ==>
          && r.ring[1].stackBase != k.ring[i].stackBase && r.ring[1].stackBase != k.ring[i].addr
          && r.ring[1].addr != k.ring[i].stackBase
      {
        CreateFresh(k, entry, i, lo, hi);
        RecordsApart(r, r.ring[1], k.ring[i], lo, hi);
      }
      CreateRing(k, r.ring[1], r);
      CreateReaps(k, r.ring[1], r);
      hide Kmalloc, Kfree, WellFormed, OwnsBlock, Stale, RingInv;
      CreateMemory(k, r, lo, hi);
    }
  }

  lemma CreateMemory(k: Kernel, r: Kernel, lo: nat, hi: nat)
    requires MemoryInv(k, lo, hi) && k.ring != [] && |r.ring| == |k.ring| + 1 && r.reaped == k.reaped
    requires r.ring == [k.ring[0], r.ring[1]] + k.ring[1..] && WellFormed(r.heap, lo, hi)
    requires r.ring[1].addr != r.ring[1].stackBase && !IsReaped(r, r.ring[1]) && TaskMemory(r, r.ring[1])
    requires forall i :: 0 <= i < |k.ring| ==> TaskMemory(r, k.ring[i])
    requires forall i :: 0 <= i < |k.ring| && !IsReaped(k, k.ring[i]) ==>
      && r.ring[1].stackBase != k.ring[i].stackBase && r.ring[1].stackBase != k.ring[i].addr
      && r.ring[1].addr != k.ring[i].stackBase
    requires forall i :: 0 <= i < |k.ring| ==> Disjoint(r.ring[1].addr, TASK_SIZE, k.ring[i].addr, TASK_SIZE)
    ensures MemoryInv(r, lo, hi)
  {
    hide WellFormed, OwnsBlock, Stale, TaskMemory;
    forall i | 0 <= i < |r.ring| && i != 1 ensures r.ring[i] == k.ring[if i == 0 then 0 else i - 1] {
    }
  }

  // ----- The rest of the kernel -----

  lemma OtherMalloc(k: Kernel, n: nat, lo: nat, hi: nat)
    requires Inv(k, lo, hi) && Legal(k, Op.Malloc(n))
    ensures Inv(k.(heap := Kmalloc(k.heap, n).0), lo, hi)
  {
    hide Kmalloc, WellFormed, OwnsBlock, Stale, AlignUp;
    var r := k.(heap := Kmalloc(k.heap, n).0);
    var _ := KmallocStep(k.heap, n, lo, hi);
    forall i | 0 <= i < |k.ring| ensures TaskMemory(r, k.ring[i]) && TaskOk(r, k.ring[i]) {
      var u := k.ring[i];
      assert TaskMemory(k, u) && TaskOk(k, u);
      if !IsReaped(k, u) {
        KmallocOwns(k.heap, n, u.addr, TASK_SIZE, lo, hi);
        if u.stackBase != 0 { KmallocOwns(k.heap, n, u.stackBase, TASK_STACK_SIZE, lo, hi); }
      }
    }
    SameRing(k, r);
  }

  lemma OtherFree(k: Kernel, p: nat, lo: nat, hi: nat)
    requires Inv(k, lo, hi) && Legal(k, Op.Free(p))
    ensures Inv(k.(heap := Kfree(k.heap, p)), lo, hi)
  {
    hide Kfree, WellFormed, OwnsBlock, Stale, Freeable;
    var r := k.(heap := Kfree(k.heap, p));
    HeapRuns.StepWellFormed(k.heap, HeapRuns.Free(p), lo, hi);
    forall i | 0 <= i < |k.ring| ensures TaskMemory(r, k.ring[i]) && TaskOk(r, k.ring[i]) {
      var u := k.ring[i];
      assert TaskMemory(k, u) && TaskOk(k, u);
      if IsReaped(k, u) {
        KfreeStale(k.heap, p, u.addr, TASK_SIZE, lo, hi);
      } else {
        KfreeOwns(k.heap, p, u.addr, TASK_SIZE, lo, hi);
        if u.stackBase != 0 { KfreeOwns(k.heap, p, u.stackBase, TASK_STACK_SIZE, lo, hi); }
      }
    }
    SameRing(k, r);
  }

  lemma SameRing(k: Kernel, r: Kernel)
    requires RingInv(k) && r.ring == k.ring && r.zombie == k.zombie && r.reaped == k.reaped
    requires r.nextPid == k.nextPid && r.ticks < QUANTUM
    ensures RingInv(r)
  {
    forall i | 0 <= i < |k.ring| ensures TaskOk(r, k.ring[i]) && (Finished(r, k.ring[i]) <==> Finished(k, k.ring[i])) {
      assert TaskOk(k, k.ring[i]);
    }
  }

  /** Every operation keeps the invariant of the whole kernel. */
  lemma StepInv(k: Kernel, op: Op, lo: nat, hi: nat)
    requires Inv(k, lo, hi) && Legal(k, op)
    ensures Inv(Step(k, op), lo, hi)
  {
    match op
    case Create(entry) => CreateInv(k, entry, lo, hi);
    case Exit =>
      ExitRing(k);
      ExitMemory(k, lo, hi);
      ScheduleInv(k.(ring := k.ring[0 := k.ring[0].(state := Terminated)]), lo, hi);
    case Yield => ScheduleInv(k, lo, hi);
    case Tick => TickInv(k, lo, hi);
    case Pause(p) =>
      SameRing(k, k.(paused := p));
      SameMemory(k, k.(paused := p), lo, hi);
    case Malloc(n) => OtherMalloc(k, n, lo, hi);
    case Free(p) => OtherFree(k, p, lo, hi);
  }

  lemma SameMemory(k: Kernel, r: Kernel, lo: nat, hi: nat)
    requires MemoryInv(k, lo, hi) && r.heap == k.heap && r.reaped == k.reaped && |r.ring| == |k.ring|
    requires forall i :: 0 <= i < |k.ring| ==>
      && r.ring[i].addr == k.ring[i].addr && r.ring[i].stackBase == k.ring[i].stackBase
      && r.ring[i].pid == k.ring[i].pid
    ensures MemoryInv(r, lo, hi)
  {
    hide WellFormed, OwnsBlock, Stale;
    forall i | 0 <= i < |k.ring| ensures TaskMemory(r, r.ring[i]) {
      assert TaskMemory(k, k.ring[i]);
    }
  }

  lemma ExitMemory(k: Kernel, lo: nat, hi: nat)
    requires k.ring != [] && MemoryInv(k, lo, hi)
    ensures MemoryInv(k.(ring := k.ring[0 := k.ring[0].(state := Terminated)]), lo, hi)
  {
    SameMemory(k, k.(ring := k.ring[0 := k.ring[0].(state := Terminated)]), lo, hi);
  }

  lemma NonEmpty(k: Kernel)
    requires RingInv(k)
    ensures k.ring != []
  {
  }

  lemma TickInv(k: Kernel, lo: nat, hi: nat)
    requires Inv(k, lo, hi)
    ensures Inv(TaskingTick(k), lo, hi)
  {
    hide RingInv, MemoryInv, Schedule;
    if !k.paused {
      var t := if k.ticks + 1 >= QUANTUM then 0 else k.ticks + 1;
      SameRing(k, k.(ticks := t));
      NonEmpty(k);
      SameMemory(k, k.(ticks := t), lo, hi);
      if k.ticks + 1 >= QUANTUM { ScheduleInv(k.(ticks := 0), lo, hi); }
    }
  }
}
