/** The end of `schedule`: `switch_to` run on the records of the ring. It keeps heap and ring
    in memory and stores the outgoing stack pointer in the outgoing task's record. */
module TaskSwitch {
  import opened Bits
  import opened Memory
  import opened HeapSpec
  import opened HeapLaws
  import opened HeapOwners
  import opened Heap
  import opened HeapPayloads
  import opened Scheduler
  import opened SchedulerLaws
  import opened SchedulerMemory
  import opened TaskRecords
  import opened TaskCreation
  import opened ContextSwitch
  import opened Tasking

  /** The 16 bytes below `esp` are stack of the outgoing task: memory that holds no header and
      no record, in a heap payload or outside the heap. */
  ghost predicate OwnStack(heap: seq<Block>, ring: seq<Task>, esp: nat, lo: nat, hi: nat) {
    && 16 <= esp
    && (InPayload(heap, esp - 16, 16) || esp <= lo || hi <= esp - 16)
    && forall i :: 0 <= i < |ring| ==> Disjoint(ring[i].addr, TASK_SIZE, esp - 16, 16)
  }

  function WithEsp(ring: seq<Task>, i: nat, esp: nat): seq<Task>
    requires i < |ring|
  {
    ring[i := ring[i].(esp := esp)]
  }

  lemma EspRecord(m: seq<byte>, n: seq<byte>, t: Task, esp: nat, next: nat)
    requires RecordAt(m, t, next)
    requires SameOutside(m, n, t.addr, t.addr + 4) && Load(n, t.addr) == esp
    ensures RecordAt(n, t.(esp := esp), next)
  {
    hide Load;
    LoadFrame(m, n, t.addr, t.addr + 4, t.addr + 4);
    LoadFrame(m, n, t.addr, t.addr + 4, t.addr + 8);
    LoadFrame(m, n, t.addr, t.addr + 4, t.addr + 12);
    LoadFrame(m, n, t.addr, t.addr + 4, t.addr + 16);
    LoadFrame(m, n, t.addr, t.addr + 4, t.addr + 20);
  }

  lemma EspStored(m: seq<byte>, n: seq<byte>, ring: seq<Task>, i: nat, esp: nat)
    requires RingStored(m, ring) && Apart(ring) && i < |ring|
    requires SameOutside(m, n, ring[i].addr, ring[i].addr + 4) && Load(n, ring[i].addr) == esp
    ensures RingStored(n, WithEsp(ring, i, esp))
  {
    hide Load;
    var r := WithEsp(ring, i, esp);
    forall j | 0 <= j < |r| ensures RecordAt(n, r[j], NextTask(r, j)) {
      assert RecordAt(m, ring[j], NextTask(ring, j));
      if j == i {
        EspRecord(m, n, ring[i], esp, NextTask(ring, i));
      } else {
        ApartAt(ring, i, j);
        RecordFrame(m, n, ring[j], NextTask(ring, j));
      }
    }
  }

  /** A store outside the heap keeps its headers. */
  lemma OutsideStored(m: seq<byte>, n: seq<byte>, bs: seq<Block>, a: nat, k: nat, lo: nat, hi: nat)
    requires Tiles(bs, lo, hi) && Stored(m, bs) && SameOutside(m, n, a, a + k)
    requires InPayload(bs, a, k) || a + k <= lo || hi <= a
    ensures Stored(n, bs)
  {
    hide Load, HeaderAt;
    if InPayload(bs, a, k) {
      PayloadStored(m, n, bs, a, k, lo, hi);
    } else {
      forall i | 0 <= i < |bs| ensures HeaderAt(n, bs[i], NextAddr(bs, i)) {
        TilesOrder(bs, lo, hi, i, i);
        assert HeaderAt(m, bs[i], NextAddr(bs, i));
        HeaderFrame(m, n, a, a + k, bs[i], NextAddr(bs, i));
      }
    }
  }

  /** The invariant says nothing about saved stack pointers. */
  lemma EspInv(k: Kernel, i: nat, esp: nat, lo: nat, hi: nat)
    requires Inv(k, lo, hi) && i < |k.ring|
    ensures Inv(k.(ring := WithEsp(k.ring, i, esp)), lo, hi)
  {
    hide Shape, States, Reaps, MemoryInv, IndexOf;
    var r := k.(ring := WithEsp(k.ring, i, esp));
    EspMemory(k, r, lo, hi);
    IndexOfSame(k.ring, r.ring, k.zombie);
    EspReaps(k, r);
    EspShape(k, r);
  }

  predicate SameButEsp(k: Kernel, r: Kernel) {
    && |r.ring| == |k.ring| && r == k.(ring := r.ring)
    && forall j :: 0 <= j < |k.ring| ==> r.ring[j] == k.ring[j].(esp := r.ring[j].esp)
  }

  lemma EspMemory(k: Kernel, r: Kernel, lo: nat, hi: nat)
    requires MemoryInv(k, lo, hi) && SameButEsp(k, r)
    ensures MemoryInv(r, lo, hi)
  {
    hide MemoryInv;
    SameMemory(k, r, lo, hi);
  }

  lemma EspShape(k: Kernel, r: Kernel)
    requires Shape(k) && States(k) && SameButEsp(k, r)
    ensures Shape(r) && States(r)
  {
    forall j | 0 <= j < |r.ring| ensures TaskOk(r, r.ring[j]) && (Finished(r, r.ring[j]) <==> Finished(k, k.ring[j])) {
      assert TaskOk(k, k.ring[j]);
    }
    var idle :| 0 <= idle < |k.ring| && k.ring[idle].pid == 0 && !k.ring[idle].state.Terminated?;
    assert r.ring[idle].pid == 0;
  }

  lemma EspReaps(k: Kernel, r: Kernel)
    requires Reaps(k) && r.reaped == k.reaped && r.zombie == k.zombie && |r.ring| == |k.ring|
    requires IndexOf(k.ring, k.zombie) == IndexOf(r.ring, k.zombie)
    requires forall j :: 0 <= j < |k.ring| ==> r.ring[j].pid == k.ring[j].pid && r.ring[j].addr == k.ring[j].addr
    ensures Reaps(r)
  {
    forall p | p in r.reaped ensures exists j :: 0 <= j < |r.ring| && r.ring[j].pid == p {
      var j :| 0 <= j < |k.ring| && k.ring[j].pid == p;
      assert r.ring[j].pid == p;
    }
  }

  /** Memory after the pushes and the store of the stack pointer. */
  lemma SwitchStored(m: seq<byte>, n: seq<byte>, bs: seq<Block>, ring: seq<Task>, i: nat, e: nat, lo: nat, hi: nat)
    requires Tiles(bs, lo, hi) && Stored(m, bs) && RingStored(m, ring) && Apart(ring) && i < |ring|
    requires OwnStack(bs, ring, e, lo, hi) && InPayload(bs, ring[i].addr, TASK_SIZE)
    requires SwitchFrame(m, n, e, ring[i].addr) && e <= |m| && ring[i].addr + TASK_SIZE <= |m|
    requires Load(n, ring[i].addr) == e - 16
    ensures Stored(n, bs) && RingStored(n, WithEsp(ring, i, e - 16))
  {
    hide Load, RingStored, Stored, Tiles, Apart;
    var p := ring[i].addr;
    var m1 := m[..e - 16] + n[e - 16..e] + m[e..];
    assert SameOutside(m, m1, e - 16, e);
    OutsideStored(m, m1, bs, e - 16, 16, lo, hi);
    RingKept(m, m1, ring, e - 16, 16);
    assert Disjoint(ring[i].addr, TASK_SIZE, e - 16, 16);
    assert SameOutside(m1, n, p, p + 4);
    Sub(bs, p, TASK_SIZE, p, 4);
    PayloadStored(m1, n, bs, p, 4, lo, hi);
    EspStored(m1, n, ring, i, e - 16);
  }

  /** `switch_to(&prev->esp, next->esp)`, with the new task already current and the old one at
      place `prev` of the ring. */
  method SwitchTasks(tasks: Tasking, cpu: Machine, ghost prev: nat)
    requires tasks.Valid() && cpu.ram == tasks.heap.ram && 0 < prev < |tasks.ring|
    requires Callable(cpu.ram[..], cpu.esp)
    requires cpu.edi < WORD && cpu.esi < WORD && cpu.ebx < WORD && cpu.ebp < WORD
    requires Load(cpu.ram[..], cpu.esp + 4) == tasks.ring[prev].addr
    requires Load(cpu.ram[..], cpu.esp + 8) == tasks.ring[0].esp
    requires OwnStack(tasks.heap.blocks, tasks.ring, cpu.esp, tasks.heap.heapBaseAddr, tasks.heap.Limit())
    modifies cpu, cpu.ram, tasks`ring
    ensures tasks.Valid() && tasks.ring == WithEsp(old(tasks.ring), prev, old(cpu.esp) - 16)
    ensures Switched(old(cpu.ram[..]), old(cpu.Regs()), cpu.ram[..], cpu.Regs())
    ensures FrameAt(old(cpu.ram[..]), tasks.ring[0].esp, cpu.Regs())
    ensures FrameAt(cpu.ram[..], tasks.ring[prev].esp, Caller(old(cpu.ram[..]), old(cpu.Regs())))
  {
    hide Load, RingStored, Stored, WellFormed, Inv, MemoryInv, RingInv, OwnStack, FrameAt, SwitchFrame, Apart, Tiles,
      InPayload, SchedulerMemory.Inv;
    ghost var k, lo, hi := tasks.Abs(), tasks.heap.heapBaseAddr, tasks.heap.Limit();
    ghost var m, e := cpu.ram[..], cpu.esp;
    InvWhole(k, lo, hi);
    MemoryFacts(k, lo, hi);
    RecordReads(m, tasks.ring, prev);
    cpu.SwitchTo();
    SwitchStored(m, cpu.ram[..], k.heap, k.ring, prev, e, lo, hi);
    EspInv(k, prev, e - 16, lo, hi);
    tasks.ring := WithEsp(tasks.ring, prev, e - 16);
    InvParts(tasks.Abs(), lo, hi);
  }

  lemma InvWhole(k: Kernel, lo: nat, hi: nat)
    requires RingInv(k) && MemoryInv(k, lo, hi)
    ensures Inv(k, lo, hi)
  {
  }
}
