/** How the ring of tasks lies in physical memory: one `task_t` of six words per task, linked
    by its last word, inside payloads of the heap. */
module TaskRecords {
  import opened Bits
  import opened Memory
  import opened HeapSpec
  import opened HeapLaws
  import HeapRuns
  import opened HeapOwners
  import opened Heap
  import opened HeapPayloads
  import opened Scheduler
  import opened SchedulerLaws
  import opened SchedulerMemory

  function Code(s: TaskState): nat {
    match s
    case Ready => 0
    case Running => 1
    case Terminated => 2
  }

  function NextTask(ring: seq<Task>, i: nat): nat
    requires i < |ring|
  {
    if i + 1 < |ring| then ring[i + 1].addr else ring[0].addr
  }

  ghost predicate RecordAt(m: seq<byte>, t: Task, next: nat) {
    && t.addr + TASK_SIZE <= |m|
    && Load(m, t.addr) == t.esp
    && Load(m, t.addr + 4) == t.stackBase
    && Load(m, t.addr + 8) == t.entry
    && Load(m, t.addr + 12) == t.pid
    && Load(m, t.addr + 16) == Code(t.state)
    && Load(m, t.addr + 20) == next
  }

  ghost predicate RingStored(m: seq<byte>, ring: seq<Task>) {
    forall i :: 0 <= i < |ring| ==> RecordAt(m, ring[i], NextTask(ring, i))
  }

  /** What `schedule` reads of a record as it walks past: whether the task is finished, and the
      address of the next record. */
  ghost predicate WalkAt(m: seq<byte>, t: Task, next: nat) {
    && t.addr + TASK_SIZE <= |m|
    && (Load(m, t.addr + 16) == Code(Terminated) <==> t.state.Terminated?)
    && Load(m, t.addr + 20) == next
  }

  /** The walk along the links goes round the ring and sees which tasks are finished. */
  ghost predicate Walkable(m: seq<byte>, ring: seq<Task>) {
    forall i :: 0 <= i < |ring| ==> WalkAt(m, ring[i], NextTask(ring, i))
  }

  lemma StoredWalkable(m: seq<byte>, ring: seq<Task>)
    requires RingStored(m, ring)
    ensures Walkable(m, ring)
  {
    hide Load;
    forall i | 0 <= i < |ring| ensures WalkAt(m, ring[i], NextTask(ring, i)) {
      assert RecordAt(m, ring[i], NextTask(ring, i));
    }
  }

  lemma RecordFrame(m: seq<byte>, n: seq<byte>, t: Task, next: nat)
    requires RecordAt(m, t, next) && SameBytes(m, n, t.addr, TASK_SIZE)
    ensures RecordAt(n, t, next)
  {
    hide Load;
    LoadSame(m, n, t.addr, 0);
    LoadSame(m, n, t.addr, 4);
    LoadSame(m, n, t.addr, 8);
    LoadSame(m, n, t.addr, 12);
    LoadSame(m, n, t.addr, 16);
    LoadSame(m, n, t.addr, 20);
  }

  lemma LoadSame(m: seq<byte>, n: seq<byte>, a: nat, d: nat)
    requires SameBytes(m, n, a, TASK_SIZE) && d + 4 <= TASK_SIZE
    ensures Load(n, a + d) == Load(m, a + d)
  {
  }

  lemma RingFrame(m: seq<byte>, n: seq<byte>, ring: seq<Task>)
    requires RingStored(m, ring)
    requires forall i :: 0 <= i < |ring| ==> SameBytes(m, n, ring[i].addr, TASK_SIZE)
    ensures RingStored(n, ring)
  {
    hide RecordAt, SameBytes;
    forall i | 0 <= i < |ring| ensures RecordAt(n, ring[i], NextTask(ring, i)) {
      assert RecordAt(m, ring[i], NextTask(ring, i)) && SameBytes(m, n, ring[i].addr, TASK_SIZE);
      RecordFrame(m, n, ring[i], NextTask(ring, i));
    }
  }

  // ----- Heap operations leave records alone -----

  ghost predicate RecordsInPayloads(heap: seq<Block>, ring: seq<Task>) {
    forall i :: 0 <= i < |ring| ==> InPayload(heap, ring[i].addr, TASK_SIZE)
  }

  lemma MemoryInPayloads(k: Kernel, lo: nat, hi: nat)
    requires MemoryInv(k, lo, hi)
    ensures RecordsInPayloads(k.heap, k.ring)
  {
    forall i | 0 <= i < |k.ring| ensures InPayload(k.heap, k.ring[i].addr, TASK_SIZE) {
      assert TaskMemory(k, k.ring[i]);
      if !IsReaped(k, k.ring[i]) { OwnsInPayload(k.heap, k.ring[i].addr, TASK_SIZE); }
    }
  }

  lemma HeadersKeepRing(m: seq<byte>, n: seq<byte>, bs: seq<Block>, ring: seq<Task>, lo: nat, hi: nat)
    requires Tiles(bs, lo, hi) && hi <= |m| && OnlyHeaders(m, n, bs)
    requires RecordsInPayloads(bs, ring) && RingStored(m, ring)
    ensures RingStored(n, ring)
  {
    hide Tiles, OnlyHeaders, InPayload, SameBytes, RingStored;
    forall i | 0 <= i < |ring| ensures SameBytes(m, n, ring[i].addr, TASK_SIZE) {
      PayloadBytes(m, n, bs, ring[i].addr, TASK_SIZE, lo, hi);
    }
    RingFrame(m, n, ring);
  }

  // ----- Field stores -----

  /** Storing the `state` field of one record stores the ring with that state. */
  lemma StateStored(m: seq<byte>, n: seq<byte>, ring: seq<Task>, i: nat, s: TaskState)
    requires RingStored(m, ring) && Apart(ring) && i < |ring|
    requires SameOutside(m, n, ring[i].addr + 16, ring[i].addr + 20) && Load(n, ring[i].addr + 16) == Code(s)
    ensures RingStored(n, ring[i := ring[i].(state := s)])
  {
    hide Load, Code;
    var ring' := ring[i := ring[i].(state := s)];
    forall j | 0 <= j < |ring'| ensures RecordAt(n, ring'[j], NextTask(ring', j)) {
      assert RecordAt(m, ring[j], NextTask(ring, j));
      if j == i {
        StateRecord(m, n, ring[i], s, NextTask(ring, i));
      } else {
        ApartAt(ring, i, j);
        RecordFrame(m, n, ring[j], NextTask(ring, j));
      }
    }
  }

  lemma ApartAt(ring: seq<Task>, i: nat, j: nat)
    requires Apart(ring) && i < |ring| && j < |ring| && i != j
    ensures Disjoint(ring[i].addr, TASK_SIZE, ring[j].addr, TASK_SIZE)
  {
    if i < j {
      assert Disjoint(ring[i].addr, TASK_SIZE, ring[j].addr, TASK_SIZE);
    } else {
      assert Disjoint(ring[j].addr, TASK_SIZE, ring[i].addr, TASK_SIZE);
    }
  }

  lemma StateRecord(m: seq<byte>, n: seq<byte>, t: Task, s: TaskState, next: nat)
    requires RecordAt(m, t, next)
    requires SameOutside(m, n, t.addr + 16, t.addr + 20) && Load(n, t.addr + 16) == Code(s)
    ensures RecordAt(n, t.(state := s), next)
  {
    hide Load;
    LoadFrame(m, n, t.addr + 16, t.addr + 20, t.addr);
    LoadFrame(m, n, t.addr + 16, t.addr + 20, t.addr + 4);
    LoadFrame(m, n, t.addr + 16, t.addr + 20, t.addr + 8);
    LoadFrame(m, n, t.addr + 16, t.addr + 20, t.addr + 12);
    LoadFrame(m, n, t.addr + 16, t.addr + 20, t.addr + 20);
  }

  /** A store that meets no record keeps the ring. */
  lemma RingKept(m: seq<byte>, n: seq<byte>, ring: seq<Task>, a: nat, k: nat)
    requires RingStored(m, ring) && SameOutside(m, n, a, a + k)
    requires forall i :: 0 <= i < |ring| ==> Disjoint(ring[i].addr, TASK_SIZE, a, k)
    ensures RingStored(n, ring)
  {
    hide Load;
    forall i | 0 <= i < |ring| ensures SameBytes(m, n, ring[i].addr, TASK_SIZE) {
      assert RecordAt(m, ring[i], NextTask(ring, i));
    }
    RingFrame(m, n, ring);
  }

  lemma LinkRecord(m: seq<byte>, n: seq<byte>, t: Task, next: nat, next': nat)
    requires RecordAt(m, t, next)
    requires SameOutside(m, n, t.addr + 20, t.addr + 24) && Load(n, t.addr + 20) == next'
    ensures RecordAt(n, t, next')
  {
    hide Load;
    LoadFrame(m, n, t.addr + 20, t.addr + 24, t.addr);
    LoadFrame(m, n, t.addr + 20, t.addr + 24, t.addr + 4);
    LoadFrame(m, n, t.addr + 20, t.addr + 24, t.addr + 8);
    LoadFrame(m, n, t.addr + 20, t.addr + 24, t.addr + 12);
    LoadFrame(m, n, t.addr + 20, t.addr + 24, t.addr + 16);
  }

  // ----- The memory of a new task -----

  /** The frame `task_create` fabricates for `switch_to`: four zero registers and an address. */
  ghost predicate InitialFrame(m: seq<byte>, sp: nat, trampoline: nat) {
    && sp + FRAME_SIZE <= |m|
    && Load(m, sp) == 0 && Load(m, sp + 4) == 0 && Load(m, sp + 8) == 0 && Load(m, sp + 12) == 0
    && Load(m, sp + 16) == trampoline
  }

  lemma FrameKept(m: seq<byte>, n: seq<byte>, sp: nat, trampoline: nat, a: nat, k: nat)
    requires InitialFrame(m, sp, trampoline) && SameOutside(m, n, a, a + k) && Disjoint(sp, FRAME_SIZE, a, k)
    ensures InitialFrame(n, sp, trampoline)
  {
    hide Load;
    LoadFrame(m, n, a, a + k, sp);
    LoadFrame(m, n, a, a + k, sp + 4);
    LoadFrame(m, n, a, a + k, sp + 8);
    LoadFrame(m, n, a, a + k, sp + 12);
    LoadFrame(m, n, a, a + k, sp + 16);
  }

  /** The first allocation keeps every record inside a payload, as long as none is reused. */
  lemma FirstAllocPayloads(k: Kernel, entry: nat, lo: nat, hi: nat)
    requires k.ring != [] && MemoryInv(k, lo, hi) && Legal(k, Create(entry))
    ensures Tiles(Kmalloc(k.heap, TASK_SIZE).0, lo, hi)
    ensures RecordsInPayloads(Kmalloc(k.heap, TASK_SIZE).0, k.ring)
  {
    hide Kmalloc, Tiles, Compact, Aligned, OwnsBlock, Stale, InPayload, AlignUp;
    var h1 := Kmalloc(k.heap, TASK_SIZE).0;
    var _ := KmallocStep(k.heap, TASK_SIZE, lo, hi);
    forall i | 0 <= i < |k.ring| ensures InPayload(h1, k.ring[i].addr, TASK_SIZE) {
      var u := k.ring[i];
      assert TaskMemory(k, u);
      if IsReaped(k, u) {
        StaleInPayload(h1, u.addr, TASK_SIZE);
      } else {
        KmallocOwns(k.heap, TASK_SIZE, u.addr, TASK_SIZE, lo, hi);
        OwnsInPayload(h1, u.addr, TASK_SIZE);
      }
    }
  }

  /** The ring may be read starting anywhere. */
  lemma RotateStored(m: seq<byte>, ring: seq<Task>, i: nat)
    requires RingStored(m, ring) && i < |ring|
    ensures RingStored(m, Rotate(ring, i))
  {
    hide RecordAt;
    var r, n := Rotate(ring, i), |ring|;
    forall j | 0 <= j < n ensures RecordAt(m, r[j], NextTask(r, j)) {
      var o := From(n, i, j);
      assert r[j] == ring[o] && NextTask(r, j) == NextTask(ring, o);
    }
  }

}
