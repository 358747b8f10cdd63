/** The memory that `task_create` leaves, in every state, and what it makes of the records
    that were there before. */
module TaskCreation {
  import opened Bits
  import opened Memory
  import opened HeapSpec
  import opened HeapLaws
  import HeapRuns
  import opened HeapOwners
  import opened Heap
  import opened HeapPayloads
  import opened Scheduler
  import opened SchedulerLaws
  import opened SchedulerMemory
  import opened TaskRecords

  /** `x` belongs to a block header, to the new record, to its frame or to the link of the
      current task's record at `c`. */
  ghost predicate Touched(heap: seq<Block>, t: Task, c: nat, x: int) {
    InHeader(heap, x) || t.addr <= x < t.addr + TASK_SIZE || t.esp <= x < t.esp + FRAME_SIZE || c + 20 <= x < c + 24
  }

  ghost predicate OnlyTouched(m: seq<byte>, n: seq<byte>, heap: seq<Block>, t: Task, c: nat) {
    && |n| == |m|
    && forall x :: 0 <= x < |m| && !Touched(heap, t, c, x) ==> n[x] == m[x]
  }

  /** `n` is what a successful `task_create` makes of `m`. */
  ghost predicate Created(m: seq<byte>, n: seq<byte>, k: Kernel, entry: nat, trampoline: nat)
    requires k.ring != []
  {
    var r, c := TaskCreate(k, entry).0, k.ring[0];
    && |r.ring| >= 2 && Stored(n, r.heap)
    && RecordAt(n, r.ring[1], NextTask(k.ring, 0)) && RecordAt(n, c, r.ring[1].addr)
    && InitialFrame(n, r.ring[1].esp, trampoline)
    && OnlyTouched(m, n, r.heap, r.ring[1], c.addr)
  }

  /** `n` is what a failing `task_create` makes of `m`: the first allocation wrote the headers of its
      list, and freeing the record again wrote those of the old list only. */
  ghost predicate Failed(m: seq<byte>, n: seq<byte>, heap: seq<Block>) {
    exists m1: seq<byte> :: Carved(m, m1, n, heap)
  }

  ghost predicate Carved(m: seq<byte>, m1: seq<byte>, n: seq<byte>, heap: seq<Block>) {
    var h1 := Kmalloc(heap, TASK_SIZE).0;
    OnlyHeaders(m, m1, h1) && Stored(m1, h1) && OnlyHeaders(m1, n, heap)
  }

  /** The header of the block just allocated was one before. */
  lemma FreedIsHeader(m1: seq<byte>, n: seq<byte>, heap: seq<Block>, size: nat)
    requires size < WORD && Kmalloc(heap, size).1 != 0 && OnlyFreed(m1, n, heap, Kmalloc(heap, size).1)
    ensures OnlyHeaders(m1, n, heap)
  {
    hide AlignUp;
    var b := heap[FirstFit(heap, AlignUp(size, 8))];
    assert b in heap && b.Payload() == Kmalloc(heap, size).1;
    assert forall x :: b.addr <= x < b.Payload() ==> InHeader(heap, x);
  }

  // ----- Where things lie -----

  /** `[a, a + n)` is heap memory that neither the record nor the stack of `t` meets. */
  ghost predicate ClearOf(heap: seq<Block>, t: Task, a: nat, n: nat) {
    && InPayload(heap, a, n)
    && Disjoint(a, n, t.stackBase, TASK_STACK_SIZE) && Disjoint(a, n, t.addr, TASK_SIZE)
  }

  /** Where a new task `t` may be stored while the current record is at `c`. */
  ghost predicate Room(heap: seq<Block>, c: nat, t: Task, lo: nat, hi: nat) {
    && Tiles(heap, lo, hi)
    && t.esp + FRAME_SIZE == t.stackBase + TASK_STACK_SIZE <= hi && t.addr + TASK_SIZE <= hi
    && InPayload(heap, t.stackBase, TASK_STACK_SIZE) && InPayload(heap, t.addr, TASK_SIZE)
    && Disjoint(t.addr, TASK_SIZE, t.stackBase, TASK_STACK_SIZE)
    && ClearOf(heap, t, c, TASK_SIZE) && c + TASK_SIZE <= hi
  }

  lemma OwnedBounds(heap: seq<Block>, p: nat, n: nat, lo: nat, hi: nat)
    requires Tiles(heap, lo, hi) && OwnsBlock(heap, p, n)
    ensures lo <= p && p + n <= hi
  {
    var b :| b in Live(heap) && b.Payload() == p && b.size >= n;
    HeapRuns.BlocksDisjoint(heap, b, lo, hi);
  }

  /** A record that is in use stays clear of the new task. */
  lemma LiveClear(k: Kernel, entry: nat, i: nat, lo: nat, hi: nat)
    requires Inv(k, lo, hi) && TaskCreate(k, entry).1 != -1 && i < |k.ring| && !IsReaped(k, k.ring[i])
    ensures var r, u := TaskCreate(k, entry).0, k.ring[i];
      OwnsBlock(r.heap, u.addr, TASK_SIZE) && ClearOf(r.heap, r.ring[1], u.addr, TASK_SIZE)
  {
    hide Kmalloc, Kfree, Tiles, Aligned, Compact, OwnsBlock, Stale, InPayload, RingInv;
    var r, u := TaskCreate(k, entry).0, k.ring[i];
    assert TaskMemory(k, u);
    TwoAllocs(k.heap, u.addr, TASK_SIZE, lo, hi);
    OwnsInPayload(r.heap, u.addr, TASK_SIZE);
    CreateOwn(k, entry, lo, hi);
    OwnedApart(r.heap, u.addr, TASK_SIZE, r.ring[1].addr, TASK_SIZE, lo, hi);
    OwnedApart(r.heap, u.addr, TASK_SIZE, r.ring[1].stackBase, TASK_STACK_SIZE, lo, hi);
  }

  /** And so does a freed one that has not been handed out again. */
  lemma FreedClear(k: Kernel, entry: nat, i: nat, lo: nat, hi: nat)
    requires Inv(k, lo, hi) && TaskCreate(k, entry).1 != -1 && i < |k.ring|
    requires Stale(TaskCreate(k, entry).0.heap, k.ring[i].addr, TASK_SIZE)
    ensures ClearOf(TaskCreate(k, entry).0.heap, TaskCreate(k, entry).0.ring[1], k.ring[i].addr, TASK_SIZE)
  {
    hide Kmalloc, Kfree, Tiles, Aligned, Compact, OwnsBlock, Stale, InPayload, Inv;
    var r, u := TaskCreate(k, entry).0, k.ring[i];
    InvParts(k, lo, hi);
    CreateOwn(k, entry, lo, hi);
    StaleInPayload(r.heap, u.addr, TASK_SIZE);
    OwnedApart(r.heap, r.ring[1].addr, TASK_SIZE, u.addr, TASK_SIZE, lo, hi);
    OwnedApart(r.heap, r.ring[1].stackBase, TASK_STACK_SIZE, u.addr, TASK_SIZE, lo, hi);
  }

  lemma InvParts(k: Kernel, lo: nat, hi: nat)
    requires Inv(k, lo, hi)
    ensures RingInv(k) && MemoryInv(k, lo, hi) && WellFormed(k.heap, lo, hi) && Apart(k.ring)
    ensures k.ring != [] && !IsReaped(k, k.ring[0]) && k.ring[0].state.Running?
  {
  }

  lemma CreateRoom(k: Kernel, entry: nat, lo: nat, hi: nat)
    requires Inv(k, lo, hi) && TaskCreate(k, entry).1 != -1
    ensures var r := TaskCreate(k, entry).0;
      && r.ring == [k.ring[0], r.ring[1]] + k.ring[1..] && WellFormed(r.heap, lo, hi)
      && Room(r.heap, k.ring[0].addr, r.ring[1], lo, hi)
  {
    hide Kmalloc, Kfree, Tiles, Aligned, Compact, OwnsBlock, InPayload, Inv;
    InvParts(k, lo, hi);
    var r := TaskCreate(k, entry).0;
    var t := r.ring[1];
    CreateOwn(k, entry, lo, hi);
    OwnedBounds(r.heap, t.addr, TASK_SIZE, lo, hi);
    OwnedBounds(r.heap, t.stackBase, TASK_STACK_SIZE, lo, hi);
    OwnsInPayload(r.heap, t.addr, TASK_SIZE);
    OwnsInPayload(r.heap, t.stackBase, TASK_STACK_SIZE);
    OwnedApart(r.heap, t.addr, TASK_SIZE, t.stackBase, TASK_STACK_SIZE, lo, hi);
    LiveClear(k, entry, 0, lo, hi);
    OwnedBounds(r.heap, k.ring[0].addr, TASK_SIZE, lo, hi);
  }

  /** The first allocation adds headers only where the second leaves some. */
  lemma SecondHeaders(heap: seq<Block>, size: nat, x: int)
    requires size < WORD && InHeader(heap, x)
    ensures InHeader(Kmalloc(heap, size).0, x)
  {
    hide AlignUp;
    var b :| b in heap && b.addr <= x < b.Payload();
    var n := AlignUp(size, 8);
    var i := FirstFit(heap, n);
    if size > 0 && i < |heap| {
      var cs := heap[..i] + Carve(heap[i], n) + heap[i + 1..];
      var j :| 0 <= j < |heap| && heap[j] == b;
      if j < i {
        assert cs[j] == b;
      } else if j > i {
        assert cs[j - i - 1 + |heap[..i] + Carve(heap[i], n)|] == b;
      } else {
        assert cs[i].addr == b.addr && cs[i] in cs;
      }
    }
  }

  lemma TwoHeaders(m: seq<byte>, m1: seq<byte>, n: seq<byte>, heap: seq<Block>, size: nat)
    requires size < WORD && OnlyHeaders(m, m1, heap) && OnlyHeaders(m1, n, Kmalloc(heap, size).0)
    ensures OnlyHeaders(m, n, Kmalloc(heap, size).0)
  {
    hide InHeader, Kmalloc;
    forall x | InHeader(heap, x) ensures InHeader(Kmalloc(heap, size).0, x) {
      SecondHeaders(heap, size, x);
    }
  }

  // ----- What becomes of the ring -----

  /** A range clear of the new task and of the current record is not changed. */
  lemma ClearSame(m: seq<byte>, n: seq<byte>, heap: seq<Block>, t: Task, c: nat, a: nat, k: nat, lo: nat, hi: nat)
    requires Tiles(heap, lo, hi) && hi <= |m| && OnlyTouched(m, n, heap, t, c)
    requires t.esp + FRAME_SIZE == t.stackBase + TASK_STACK_SIZE
    requires ClearOf(heap, t, a, k) && Disjoint(a, k, c, TASK_SIZE)
    ensures SameBytes(m, n, a, k)
  {
    hide Tiles, InHeader;
    var b :| b in heap && b.Payload() <= a && a + k <= b.End();
    HeapRuns.BlocksDisjoint(heap, b, lo, hi);
    forall x | a <= x < a + k ensures n[x] == m[x] {
      NotInHeader(heap, lo, hi, x);
    }
  }

  /** The record at place `i > 0` is kept when it is clear of the new task. */
  lemma RecordKept(m: seq<byte>, n: seq<byte>, k: Kernel, entry: nat, trampoline: nat, i: nat, lo: nat, hi: nat)
    requires Inv(k, lo, hi) && TaskCreate(k, entry).1 != -1 && hi <= |m|
    requires RingStored(m, k.ring) && Created(m, n, k, entry, trampoline) && 0 < i < |k.ring|
    requires var r := TaskCreate(k, entry).0; ClearOf(r.heap, r.ring[1], k.ring[i].addr, TASK_SIZE)
    ensures RecordAt(n, k.ring[i], NextTask(k.ring, i))
  {
    hide Kmalloc, Kfree, WellFormed, Inv, ClearOf, RecordAt, Stored, InitialFrame, OnlyTouched, NextTask;
    var r := TaskCreate(k, entry).0;
    CreateRoom(k, entry, lo, hi);
    InvParts(k, lo, hi);
    ApartAt(k.ring, 0, i);
    ClearSame(m, n, r.heap, r.ring[1], k.ring[0].addr, k.ring[i].addr, TASK_SIZE, lo, hi);
    assert RecordAt(m, k.ring[i], NextTask(k.ring, i));
    RecordFrame(m, n, k.ring[i], NextTask(k.ring, i));
  }

  /** When no freed record has been handed out again, memory holds the ring with the new task
      right after the current one. */
  lemma CreatedRing(m: seq<byte>, n: seq<byte>, k: Kernel, entry: nat, trampoline: nat, lo: nat, hi: nat)
    requires Inv(k, lo, hi) && Legal(k, Create(entry)) && TaskCreate(k, entry).1 != -1 && hi <= |m|
    requires RingStored(m, k.ring) && Created(m, n, k, entry, trampoline)
    ensures RingStored(n, TaskCreate(k, entry).0.ring)
  {
    hide Inv, RecordAt, RingStored, TaskCreate, Created, NextTask, Legal;
    InvParts(k, lo, hi);
    CreatedHeads(m, n, k, entry, trampoline, lo, hi);
    var r := TaskCreate(k, entry).0;
    forall j | 0 <= j < |r.ring| ensures RecordAt(n, r.ring[j], NextTask(r.ring, j)) {
      if j > 1 {
        ShiftedAt(k.ring, r.ring, j - 1);
        OldRecord(m, n, k, entry, trampoline, j - 1, lo, hi);
      }
    }
    RingIs(n, r.ring);
  }

  /** The ring after `task_create`, and the records of the current task and the new one. */
  lemma CreatedHeads(m: seq<byte>, n: seq<byte>, k: Kernel, entry: nat, trampoline: nat, lo: nat, hi: nat)
    requires Inv(k, lo, hi) && TaskCreate(k, entry).1 != -1 && Created(m, n, k, entry, trampoline)
    ensures var r := TaskCreate(k, entry).0;
      && |r.ring| >= 2 && r.ring == [k.ring[0], r.ring[1]] + k.ring[1..]
      && RecordAt(n, r.ring[0], NextTask(r.ring, 0)) && RecordAt(n, r.ring[1], NextTask(r.ring, 1))
  {
    hide Stored, InitialFrame, OnlyTouched, Inv, RecordAt, Kmalloc, Kfree;
    InvParts(k, lo, hi);
  }

  lemma OldRecord(m: seq<byte>, n: seq<byte>, k: Kernel, entry: nat, trampoline: nat, i: nat, lo: nat, hi: nat)
    requires Inv(k, lo, hi) && Legal(k, Create(entry)) && TaskCreate(k, entry).1 != -1 && hi <= |m|
    requires RingStored(m, k.ring) && Created(m, n, k, entry, trampoline) && 0 < i < |k.ring|
    ensures RecordAt(n, k.ring[i], NextTask(k.ring, i))
  {
    hide Kmalloc, Kfree, Inv, ClearOf, RecordAt, Created, RingStored, Stale;
    if IsReaped(k, k.ring[i]) {
      FreedClear(k, entry, i, lo, hi);
    } else {
      LiveClear(k, entry, i, lo, hi);
    }
    RecordKept(m, n, k, entry, trampoline, i, lo, hi);
  }

  lemma ShiftedAt(ring: seq<Task>, ring': seq<Task>, i: nat)
    requires |ring'| >= 2 && ring != [] && ring' == [ring[0], ring'[1]] + ring[1..] && 0 < i < |ring|
    ensures ring'[i + 1] == ring[i] && NextTask(ring', i + 1) == NextTask(ring, i)
  {
  }

  lemma RingIs(m: seq<byte>, ring: seq<Task>)
    requires forall i :: 0 <= i < |ring| ==> RecordAt(m, ring[i], NextTask(ring, i))
    ensures RingStored(m, ring)
  {
  }
}
