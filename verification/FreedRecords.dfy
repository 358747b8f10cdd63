/** Records of finished tasks stay linked after `schedule` has freed them, so the walk along the
    ring reads free memory. This module says exactly which allocations overwrite what the walk
    reads there: the last two words of the record, `state` and `next`. */
module FreedRecords {
  import opened Bits
  import opened Memory
  import opened HeapSpec
  import opened HeapLaws
  import HeapRuns
  import opened HeapOwners
  import opened Heap
  import opened HeapPayloads
  import opened Scheduler
  import opened SchedulerLaws
  import opened SchedulerMemory
  import opened TaskRecords
  import opened TaskCreation

  // ----- The memory an allocation takes -----

  /** The rest of the block found is kept as a block of its own. */
  predicate Splits(bs: seq<Block>, size: nat) {
    var i := FirstFit(bs, size);
    i < |bs| && bs[i].size - size >= HEADER + MIN_BLOCK_DATA
  }

  /** The bytes taken from the pointer on: the block granted, and the header of the rest. */
  function TakenLength(bs: seq<Block>, size: nat): nat
    requires FirstFit(bs, size) < |bs|
  {
    if Splits(bs, size) then size + HEADER else bs[FirstFit(bs, size)].size
  }

  /** The size of the rest. */
  function RestSize(bs: seq<Block>, size: nat): nat
    requires Splits(bs, size)
  {
    bs[FirstFit(bs, size)].size - size - HEADER
  }

  lemma AllocBlocks(bs: seq<Block>, size: nat, b: Block)
    requires FirstFit(bs, size) < |bs|
    ensures var (cs, p) := Alloc(bs, size); var i := FirstFit(bs, size);
      b in cs <==>
        || (b in bs[..i] || b in bs[i + 1..])
        || b == Block(bs[i].addr, if Splits(bs, size) then size else bs[i].size, false)
        || (Splits(bs, size) && b == Block(p + size, RestSize(bs, size), true))
  {
    var i := FirstFit(bs, size);
    var r := Carve(bs[i], size);
    assert b in bs[..i] + r + bs[i + 1..] <==> b in bs[..i] || b in r || b in bs[i + 1..];
  }

  lemma AroundFit(bs: seq<Block>, i: nat, b: Block)
    requires i < |bs|
    ensures b in bs <==> b in bs[..i] || b == bs[i] || b in bs[i + 1..]
  {
    assert bs == bs[..i] + [bs[i]] + bs[i + 1..];
  }

  /** An allocation adds one header at most, that of the rest. */
  lemma AllocHeaders(bs: seq<Block>, size: nat, x: int)
    requires FirstFit(bs, size) < |bs|
    ensures var (cs, p) := Alloc(bs, size);
      InHeader(cs, x) <==> InHeader(bs, x) || (Splits(bs, size) && p + size <= x < p + size + HEADER)
  {
    hide Alloc, Splits, FirstFit;
    var (cs, p) := Alloc(bs, size);
    var i := FirstFit(bs, size);
    if InHeader(cs, x) {
      var c :| c in cs && c.addr <= x < c.Payload();
      AllocBlocks(bs, size, c);
      AroundFit(bs, i, c);
      AroundFit(bs, i, bs[i]);
    }
    if InHeader(bs, x) {
      var b :| b in bs && b.addr <= x < b.Payload();
      AroundFit(bs, i, b);
      AllocBlocks(bs, size, b);
      var c := Block(bs[i].addr, if Splits(bs, size) then size else bs[i].size, false);
      AllocBlocks(bs, size, c);
    }
    if Splits(bs, size) && p + size <= x < p + size + HEADER {
      AllocBlocks(bs, size, Block(p + size, RestSize(bs, size), true));
    }
  }

  lemma AllocAddrs(bs: seq<Block>, size: nat, b: Block) returns (c: Block)
    requires FirstFit(bs, size) < |bs| && b in bs
    ensures c in Alloc(bs, size).0 && c.addr == b.addr
  {
    hide Alloc, FirstFit;
    var i := FirstFit(bs, size);
    AroundFit(bs, i, b);
    c := if b == bs[i] then Block(bs[i].addr, if Splits(bs, size) then size else bs[i].size, false) else b;
    AllocBlocks(bs, size, c);
  }

  lemma InFreeBlock(bs: seq<Block>, size: nat, a: nat, n: nat, lo: nat, hi: nat)
    requires Tiles(bs, lo, hi) && FirstFit(bs, size) < |bs| && Stale(bs, a, n) && n > 0
    ensures var b := bs[FirstFit(bs, size)];
      Disjoint(a, n, b.addr, HEADER + b.size) || (b.Payload() <= a && a + n <= b.End())
  {
    hide FirstFit;
    var b := bs[FirstFit(bs, size)];
    var c :| c in bs && c.free && c.Payload() <= a && a + n <= c.End();
    HeapRuns.BlocksDisjoint(bs, b, lo, hi);
  }

  /** Freed bytes stay free exactly when the allocation does not take one of them. */
  lemma StaleAfter(bs: seq<Block>, size: nat, a: nat, n: nat, lo: nat, hi: nat)
    requires WellFormed(bs, lo, hi) && size % 4 == 0 && FirstFit(bs, size) < |bs| && Stale(bs, a, n) && n > 0
    ensures var (cs, p) := Alloc(bs, size);
      Stale(cs, a, n) <==> Disjoint(a, n, p, TakenLength(bs, size))
  {
    hide FirstFit, Alloc, Compact, Aligned, Tiles;
    var (cs, p) := Alloc(bs, size);
    var i := FirstFit(bs, size);
    AllocPointer(bs, size);
    InFreeBlock(bs, size, a, n, lo, hi);
    if Disjoint(a, n, p, TakenLength(bs, size)) {
      var c :| c in bs && c.free && c.Payload() <= a && a + n <= c.End();
      AroundFit(bs, i, c);
      if c == bs[i] { c := Block(p + size, RestSize(bs, size), true); }
      AllocBlocks(bs, size, c);
      assert c in cs;
    }
    if Stale(cs, a, n) {
      var c :| c in cs && c.free && c.Payload() <= a && a + n <= c.End();
      AllocBlocks(bs, size, c);
      if c in bs[..i] || c in bs[i + 1..] { OtherBlock(bs, i, c, lo, hi); }
    }
  }

  lemma AllocPointer(bs: seq<Block>, size: nat)
    requires FirstFit(bs, size) < |bs|
    ensures Alloc(bs, size).1 == bs[FirstFit(bs, size)].Payload() && bs[FirstFit(bs, size)].size >= size
  {
  }

  lemma OtherBlock(bs: seq<Block>, i: nat, c: Block, lo: nat, hi: nat)
    requires Tiles(bs, lo, hi) && i < |bs| && (c in bs[..i] || c in bs[i + 1..])
    ensures c.End() <= bs[i].addr || bs[i].End() <= c.addr
  {
    if c in bs[..i] {
      var j :| 0 <= j < i && bs[..i][j] == c;
      TilesOrder(bs, lo, hi, j, i);
    } else {
      var j :| 0 <= j < |bs[i + 1..]| && bs[i + 1..][j] == c;
      TilesOrder(bs, lo, hi, i, i + 1 + j);
    }
  }

  /** No freed record is handed out again exactly when what `kmalloc` takes, the header of the
      rest included, meets none. */
  lemma NoReuseMeaning(k: Kernel, n: nat, lo: nat, hi: nat)
    requires Inv(k, lo, hi) && 0 < n < WORD && Kmalloc(k.heap, n).1 != 0
    ensures FirstFit(k.heap, AlignUp(n, 8)) < |k.heap|
    ensures var (h, p) := Kmalloc(k.heap, n);
      NoReuse(k, h) <==> forall i :: 0 <= i < |k.ring| && IsReaped(k, k.ring[i]) ==>
        Disjoint(k.ring[i].addr, TASK_SIZE, p, TakenLength(k.heap, AlignUp(n, 8)))
  {
    hide FirstFit, Tiles, Compact, Aligned, AlignUp, Stale, TakenLength, RingInv, Kmalloc, Alloc;
    KmallocIsAlloc(k.heap, n);
    var (h, p) := Kmalloc(k.heap, n);
    forall i | 0 <= i < |k.ring| && IsReaped(k, k.ring[i])
      ensures Stale(h, k.ring[i].addr, TASK_SIZE) <==>
        Disjoint(k.ring[i].addr, TASK_SIZE, p, TakenLength(k.heap, AlignUp(n, 8)))
    {
      assert TaskMemory(k, k.ring[i]);
      StaleAfter(k.heap, AlignUp(n, 8), k.ring[i].addr, TASK_SIZE, lo, hi);
    }
  }

  // ----- The words the walk reads -----

  /** The `state` and `next` words of the record at `a` are outside `[p, p + n)`. */
  predicate Spared(a: nat, p: nat, n: nat) {
    Disjoint(a + 16, 8, p, n)
  }

  lemma ReapedFinished(k: Kernel, i: nat, lo: nat, hi: nat)
    requires Inv(k, lo, hi) && i < |k.ring| && IsReaped(k, k.ring[i])
    ensures i > 0 && k.ring[i].state.Terminated? && Stale(k.heap, k.ring[i].addr, TASK_SIZE)
  {
    assert TaskMemory(k, k.ring[i]);
    assert Finished(k, k.ring[i]);
  }

  lemma RingAddress(k: Kernel, i: nat)
    requires RingInv(k) && i < |k.ring|
    ensures k.ring[i].addr % 4 == 0 && k.ring[i].addr > 0
    ensures NextTask(k.ring, i) % 4 == 0 && NextTask(k.ring, i) > 0
  {
    assert TaskOk(k, k.ring[i]);
    assert TaskOk(k, k.ring[if i + 1 < |k.ring| then i + 1 else 0]);
  }

  /** The words of a header are no mark of a finished task. */
  lemma HeaderState(m: seq<byte>, bs: seq<Block>, c: Block, a: nat)
    requires Stored(m, bs) && Aligned(bs) && c in bs && a % 4 == 0 && a + 20 <= |m|
    ensures c.addr <= a + 16 < c.Payload() ==> Load(m, a + 16) != Code(Terminated)
    ensures c.addr % 4 == 0 && c.Payload() <= |m| && Load(m, c.addr) == c.size
  {
    hide Load, HeaderAt, Stored, Aligned;
    var next := HeaderOf(m, bs, c);
    HeaderWords(m, c, next);
    if c.addr <= a + 16 < c.Payload() { FourSteps(c.addr, a + 16); }
  }

  lemma HeaderOf(m: seq<byte>, bs: seq<Block>, c: Block) returns (next: nat)
    requires Stored(m, bs) && Aligned(bs) && c in bs
    ensures HeaderAt(m, c, next) && c.addr % 4 == 0 && c.size % 4 == 0 && next % 4 == 0
  {
    hide HeaderAt;
    var j :| 0 <= j < |bs| && bs[j] == c;
    next := NextAddr(bs, j);
    assert HeaderAt(m, bs[j], next);
  }

  lemma HeaderWords(m: seq<byte>, c: Block, next: nat)
    requires HeaderAt(m, c, next) && c.size % 4 == 0 && next % 4 == 0
    ensures c.Payload() <= |m| && Load(m, c.addr) == c.size
    ensures Load(m, c.addr) != Code(Terminated) && Load(m, c.addr + 4) != Code(Terminated)
    ensures Load(m, c.addr + 8) != Code(Terminated)
  {
    hide Load;
  }

  lemma FourSteps(x: nat, y: nat)
    requires x % 4 == 0 && y % 4 == 0 && x <= y < x + HEADER
    ensures y == x || y == x + 4 || y == x + 8
  {
  }

  lemma SameWords(m: seq<byte>, n: seq<byte>, a: nat)
    requires |n| == |m| && a + 4 <= |m| && forall x :: a <= x < a + 4 ==> n[x] == m[x]
    ensures Load(n, a) == Load(m, a)
  {
  }

  // ----- kmalloc -----

  /** The header of the rest at `h`, of size `rest`, leaves the walk past the record at `a` as it
      was: it misses both words, or its size is by chance the address of the next record. */
  predicate HeaderHarmless(a: nat, next: nat, h: nat, rest: nat) {
    Spared(a, h, HEADER) || (h == a + 20 && rest == next)
  }

  lemma FreedBytes(m: seq<byte>, n: seq<byte>, bs: seq<Block>, size: nat, a: nat, lo: nat, hi: nat)
    requires Tiles(bs, lo, hi) && Stale(bs, a, TASK_SIZE) && FirstFit(bs, size) < |bs| && hi <= |m|
    requires OnlyHeaders(m, n, Alloc(bs, size).0)
    ensures a + TASK_SIZE <= |m| == |n|
    ensures var h := Alloc(bs, size).1 + size;
      forall x :: a <= x < a + TASK_SIZE && !(Splits(bs, size) && h <= x < h + HEADER) ==> n[x] == m[x]
  {
    hide Tiles, InHeader, FirstFit, Alloc, Splits;
    var b :| b in bs && b.free && b.Payload() <= a && a + TASK_SIZE <= b.End();
    HeapRuns.BlocksDisjoint(bs, b, lo, hi);
    var h := Alloc(bs, size).1 + size;
    forall x | a <= x < a + TASK_SIZE && !(Splits(bs, size) && h <= x < h + HEADER) ensures n[x] == m[x] {
      NotInHeader(bs, lo, hi, x);
      AllocHeaders(bs, size, x);
    }
  }

  /** The walk past one freed record. */
  lemma FreedWalk(m: seq<byte>, n: seq<byte>, bs: seq<Block>, size: nat, t: Task, next: nat, lo: nat, hi: nat)
    requires WellFormed(bs, lo, hi) && hi <= |m| && size % 4 == 0 && FirstFit(bs, size) < |bs|
    requires Stale(bs, t.addr, TASK_SIZE) && RecordAt(m, t, next) && t.state.Terminated? && t.addr % 4 == 0
    requires Stored(n, Alloc(bs, size).0) && OnlyHeaders(m, n, Alloc(bs, size).0)
    ensures var h := Alloc(bs, size).1 + size;
      WalkAt(n, t, next) <==> Splits(bs, size) ==> HeaderHarmless(t.addr, next, h, RestSize(bs, size))
  {
    hide Tiles, Aligned, Compact, FirstFit, Alloc, Splits, Stored, OnlyHeaders, Stale, Load, RestSize;
    var (cs, p) := Alloc(bs, size);
    var h, a := p + size, t.addr;
    FreedBytes(m, n, bs, size, a, lo, hi);
    if !Splits(bs, size) || Spared(a, h, HEADER) {
      SameWords(m, n, a + 16);
      SameWords(m, n, a + 20);
    } else {
      var c := Block(h, RestSize(bs, size), true);
      AllocBlocks(bs, size, c);
      AllocAligned(bs, size, lo, hi);
      HeaderState(n, cs, c, a);
      if h == a + 20 { SameWords(m, n, a + 16); }
    }
  }

  lemma AllocAligned(bs: seq<Block>, size: nat, lo: nat, hi: nat)
    requires WellFormed(bs, lo, hi) && size % 4 == 0
    ensures Aligned(Alloc(bs, size).0)
  {
    var _ := AllocStep(bs, size, lo, hi);
  }

  /** After `kmalloc` the walk along the ring is what it was if and only if the header of the rest
      does no harm to any freed record. */
  lemma KmallocKeepsWalk(m: seq<byte>, n: seq<byte>, k: Kernel, request: nat, lo: nat, hi: nat)
    requires Inv(k, lo, hi) && RingStored(m, k.ring) && hi <= |m|
    requires 0 < request < WORD && Kmalloc(k.heap, request).1 != 0
    requires Stored(n, Kmalloc(k.heap, request).0) && OnlyHeaders(m, n, Kmalloc(k.heap, request).0)
    ensures var p, size := Kmalloc(k.heap, request).1, AlignUp(request, 8);
      Walkable(n, k.ring) <==>
        Splits(k.heap, size) ==> forall i :: 0 <= i < |k.ring| && IsReaped(k, k.ring[i]) ==>
          HeaderHarmless(k.ring[i].addr, NextTask(k.ring, i), p + size, RestSize(k.heap, size))
  {
    hide AlignUp, WalkAt, HeaderHarmless, Stored, OnlyHeaders, RecordAt, WellFormed, NextTask, RestSize, Splits;
    var p, size := Kmalloc(k.heap, request).1, AlignUp(request, 8);
    forall i | 0 <= i < |k.ring|
      ensures WalkAt(n, k.ring[i], NextTask(k.ring, i)) <==>
        IsReaped(k, k.ring[i]) && Splits(k.heap, size) ==>
          HeaderHarmless(k.ring[i].addr, NextTask(k.ring, i), p + size, RestSize(k.heap, size))
    {
      KmallocWalkAt(m, n, k, request, i, lo, hi);
    }
  }

  lemma KmallocWalkAt(m: seq<byte>, n: seq<byte>, k: Kernel, request: nat, i: nat, lo: nat, hi: nat)
    requires Inv(k, lo, hi) && RingStored(m, k.ring) && hi <= |m| && i < |k.ring|
    requires 0 < request < WORD && Kmalloc(k.heap, request).1 != 0
    requires Stored(n, Kmalloc(k.heap, request).0) && OnlyHeaders(m, n, Kmalloc(k.heap, request).0)
    ensures var p, size := Kmalloc(k.heap, request).1, AlignUp(request, 8);
      WalkAt(n, k.ring[i], NextTask(k.ring, i)) <==>
        IsReaped(k, k.ring[i]) && Splits(k.heap, size) ==>
          HeaderHarmless(k.ring[i].addr, NextTask(k.ring, i), p + size, RestSize(k.heap, size))
  {
    hide AlignUp, WalkAt, HeaderHarmless, Stored, OnlyHeaders, RecordAt, WellFormed, RestSize, Splits, OwnsBlock,
      Stale, FirstFit, RingInv, Kmalloc, Alloc, NextTask;
    var u := k.ring[i];
    assert RecordAt(m, u, NextTask(k.ring, i));
    assert TaskMemory(k, u);
    RingAddress(k, i);
    KmallocIsAlloc(k.heap, request);
    if IsReaped(k, u) {
      ReapedFinished(k, i, lo, hi);
      FreedWalk(m, n, k.heap, AlignUp(request, 8), u, NextTask(k.ring, i), lo, hi);
    } else {
      LiveWalk(m, n, k.heap, request, u, NextTask(k.ring, i), lo, hi);
    }
  }

  lemma KmallocIsAlloc(heap: seq<Block>, request: nat)
    requires 0 < request < WORD
    ensures AlignUp(request, 8) % 8 == 0 && Kmalloc(heap, request) == Alloc(heap, AlignUp(request, 8))
    ensures Kmalloc(heap, request).1 != 0 <==> FirstFit(heap, AlignUp(request, 8)) < |heap|
  {
    hide AlignUp, FirstFit;
    AlignUp8(request);
  }

  /** The walk past a record that is in use. */
  lemma LiveWalk(m: seq<byte>, n: seq<byte>, heap: seq<Block>, request: nat, t: Task, next: nat, lo: nat, hi: nat)
    requires WellFormed(heap, lo, hi) && hi <= |m| && request < WORD
    requires OwnsBlock(heap, t.addr, TASK_SIZE) && RecordAt(m, t, next) && OnlyHeaders(m, n, Kmalloc(heap, request).0)
    ensures WalkAt(n, t, next)
  {
    hide Kmalloc, Tiles, Aligned, Compact, OwnsBlock, InPayload, OnlyHeaders, RecordAt, AlignUp, WalkAt, SameBytes;
    var h := Kmalloc(heap, request).0;
    KmallocOwns(heap, request, t.addr, TASK_SIZE, lo, hi);
    OwnsInPayload(h, t.addr, TASK_SIZE);
    var _ := KmallocStep(heap, request, lo, hi);
    PayloadBytes(m, n, h, t.addr, TASK_SIZE, lo, hi);
    RecordFrame(m, n, t, next);
    RecordWalk(n, t, next);
  }

  lemma RecordWalk(m: seq<byte>, t: Task, next: nat)
    requires RecordAt(m, t, next)
    ensures WalkAt(m, t, next)
  {
  }

  // ----- A task_create that fails -----

  /** Writing headers of the current list keeps the walk, whatever it was: every record lies in a
      payload. */
  lemma HeadersKeepWalk(m: seq<byte>, n: seq<byte>, k: Kernel, lo: nat, hi: nat)
    requires MemoryInv(k, lo, hi) && hi <= |m| && OnlyHeaders(m, n, k.heap)
    ensures Walkable(n, k.ring) <==> Walkable(m, k.ring)
  {
    hide Tiles, Aligned, Compact, OnlyHeaders, InPayload, WalkAt, NextTask;
    MemoryInPayloads(k, lo, hi);
    forall i | 0 <= i < |k.ring|
      ensures WalkAt(n, k.ring[i], NextTask(k.ring, i)) <==> WalkAt(m, k.ring[i], NextTask(k.ring, i))
    {
      PayloadBytes(m, n, k.heap, k.ring[i].addr, TASK_SIZE, lo, hi);
      SameWalk(m, n, k.ring[i], NextTask(k.ring, i));
    }
  }

  lemma SameWalk(m: seq<byte>, n: seq<byte>, t: Task, next: nat)
    requires SameBytes(m, n, t.addr, TASK_SIZE)
    ensures WalkAt(n, t, next) <==> WalkAt(m, t, next)
  {
    hide Load;
    SameWords(m, n, t.addr + 16);
    SameWords(m, n, t.addr + 20);
  }

  /** A `task_create` that fails is not without trace either: it may have carved a record for a
      moment, and the header behind it stays in memory when the blocks are merged again. The walk
      along the ring is what it was if and only if that header does no harm to any freed record. */
  lemma FailedCreateKeepsWalk(m: seq<byte>, n: seq<byte>, k: Kernel, entry: nat, lo: nat, hi: nat)
    requires Inv(k, lo, hi) && RingStored(m, k.ring) && hi <= |m| && TaskCreate(k, entry).1 == -1
    requires Failed(m, n, k.heap)
    ensures var t := Kmalloc(k.heap, TASK_SIZE).1;
      Walkable(n, k.ring) <==>
        Splits(k.heap, TASK_SIZE) ==> forall i :: 0 <= i < |k.ring| && IsReaped(k, k.ring[i]) ==>
          HeaderHarmless(k.ring[i].addr, NextTask(k.ring, i), t + TASK_SIZE, RestSize(k.heap, TASK_SIZE))
  {
    hide AlignUp, HeaderHarmless, Stored, OnlyHeaders, RingInv, MemoryInv, Kmalloc, Splits, RestSize, NextTask,
      Walkable, RingStored;
    RoundSizes();
    KmallocIsAlloc(k.heap, TASK_SIZE);
    var m1 :| Carved(m, m1, n, k.heap);
    SameSize(m, m1, Kmalloc(k.heap, TASK_SIZE).0);
    HeadersKeepWalk(m1, n, k, lo, hi);
    if Kmalloc(k.heap, TASK_SIZE).1 != 0 {
      KmallocKeepsWalk(m, m1, k, TASK_SIZE, lo, hi);
    } else {
      AllocNone(k.heap, TASK_SIZE);
      StoredWalkable(m, k.ring);
      HeadersKeepWalk(m, m1, k, lo, hi);
    }
  }

  lemma SameSize(m: seq<byte>, n: seq<byte>, bs: seq<Block>)
    requires OnlyHeaders(m, n, bs)
    ensures |n| == |m|
  {
  }

  lemma AllocNone(bs: seq<Block>, size: nat)
    requires FirstFit(bs, size) == |bs|
    ensures Alloc(bs, size).0 == bs && !Splits(bs, size)
  {
  }

  // ----- task_create -----

  /** The header that an allocation adds. */
  function Extra(bs: seq<Block>, size: nat): nat {
    if Splits(bs, size) then HEADER else 0
  }

  /** What `task_create` writes at `t` and at `sp` misses the words of the freed record at `a`: the
      new record and the frame, each with the header that may follow it. */
  predicate CreateHarmless(heap: seq<Block>, t: nat, sp: nat, a: nat) {
    && Spared(a, t, TASK_SIZE + Extra(heap, TASK_SIZE))
    && Spared(a, sp, FRAME_SIZE + Extra(Alloc(heap, TASK_SIZE).0, TASK_STACK_SIZE))
  }

  lemma RoundSizes()
    ensures AlignUp(TASK_SIZE, 8) == TASK_SIZE && AlignUp(TASK_STACK_SIZE, 8) == TASK_STACK_SIZE
  {
    hide AlignUp;
    AlignUp8(TASK_SIZE);
    AlignUp8(TASK_STACK_SIZE);
  }

  /** `task_create` as its two allocations. */
  lemma CreateAllocs(k: Kernel, entry: nat)
    requires k.ring != [] && TaskCreate(k, entry).1 != -1
    ensures var r := TaskCreate(k, entry).0; var h1 := Alloc(k.heap, TASK_SIZE).0;
      && |r.ring| >= 2 && FirstFit(k.heap, TASK_SIZE) < |k.heap| && FirstFit(h1, TASK_STACK_SIZE) < |h1|
      && r.heap == Alloc(h1, TASK_STACK_SIZE).0
      && r.ring[1].addr == Alloc(k.heap, TASK_SIZE).1 && r.ring[1].stackBase == Alloc(h1, TASK_STACK_SIZE).1
      && r.ring[1].esp + FRAME_SIZE == r.ring[1].stackBase + TASK_STACK_SIZE
      && r.ring[1].state == Ready && r.ring[1].addr > 0
  {
    hide AlignUp, Alloc, FirstFit;
    RoundSizes();
    KmallocIsAlloc(k.heap, TASK_SIZE);
    KmallocIsAlloc(Alloc(k.heap, TASK_SIZE).0, TASK_STACK_SIZE);
  }

  /** Which headers there are after both allocations. */
  lemma CreateHeaders(k: Kernel, entry: nat, x: int)
    requires k.ring != [] && TaskCreate(k, entry).1 != -1
    ensures var r := TaskCreate(k, entry).0; var t, h1 := r.ring[1], Alloc(k.heap, TASK_SIZE).0;
      InHeader(r.heap, x) <==>
        || InHeader(k.heap, x)
        || t.addr + TASK_SIZE <= x < t.addr + TASK_SIZE + Extra(k.heap, TASK_SIZE)
        || t.esp + FRAME_SIZE <= x < t.esp + FRAME_SIZE + Extra(h1, TASK_STACK_SIZE)
  {
    hide Alloc, FirstFit, Splits, TaskCreate, InHeader;
    CreateAllocs(k, entry);
    AllocHeaders(k.heap, TASK_SIZE, x);
    AllocHeaders(Alloc(k.heap, TASK_SIZE).0, TASK_STACK_SIZE, x);
  }

  /** The blocks that carry the two new headers. */
  lemma CreateRests(k: Kernel, entry: nat) returns (b: Block, c: Block)
    requires k.ring != [] && TaskCreate(k, entry).1 != -1
    ensures var r := TaskCreate(k, entry).0; var t, h1 := r.ring[1], Alloc(k.heap, TASK_SIZE).0;
      && (Splits(k.heap, TASK_SIZE) ==> b in r.heap && b.addr == t.addr + TASK_SIZE)
      && (Splits(h1, TASK_STACK_SIZE) ==> c in r.heap && c.addr == t.esp + FRAME_SIZE)
  {
    hide Alloc, FirstFit, Splits, TaskCreate;
    CreateAllocs(k, entry);
    var h1, t := Alloc(k.heap, TASK_SIZE).0, TaskCreate(k, entry).0.ring[1];
    b, c := Block(0, 0, false), Block(0, 0, false);
    if Splits(k.heap, TASK_SIZE) {
      var x := Block(t.addr + TASK_SIZE, RestSize(k.heap, TASK_SIZE), true);
      AllocBlocks(k.heap, TASK_SIZE, x);
      b := AllocAddrs(h1, TASK_STACK_SIZE, x);
    }
    if Splits(h1, TASK_STACK_SIZE) {
      c := Block(t.esp + FRAME_SIZE, RestSize(h1, TASK_STACK_SIZE), true);
      AllocBlocks(h1, TASK_STACK_SIZE, c);
    }
  }

  /** A freed record that the new record meets lies at or after it. */
  lemma RecordBelow(k: Kernel, entry: nat, a: nat, lo: nat, hi: nat)
    requires Tiles(k.heap, lo, hi) && k.ring != [] && TaskCreate(k, entry).1 != -1 && Stale(k.heap, a, TASK_SIZE)
    ensures var t := TaskCreate(k, entry).0.ring[1].addr; Disjoint(a, TASK_SIZE, t, TASK_SIZE) || t <= a
  {
    hide Alloc, FirstFit, TaskCreate, Tiles, Stale;
    CreateAllocs(k, entry);
    AllocPointer(k.heap, TASK_SIZE);
    InFreeBlock(k.heap, TASK_SIZE, a, TASK_SIZE, lo, hi);
  }

  /** What lies in the way of a freed record spoils one of its two words. */
  lemma CreateSpoils(n: seq<byte>, heap: seq<Block>, t: Task, next0: nat, trampoline: nat, b: Block, c: Block,
                     a: nat, next: nat, x1: nat, x2: nat)
    requires Stored(n, heap) && Aligned(heap) && RecordAt(n, t, next0) && InitialFrame(n, t.esp, trampoline)
    requires trampoline != Code(Terminated) && t.state == Ready && next0 % 4 == 0 && next > 0
    requires a % 4 == 0 && t.addr % 4 == 0 && t.esp % 4 == 0 && a + TASK_SIZE <= |n|
    requires x1 == 0 || (x1 == HEADER && b in heap && b.addr == t.addr + TASK_SIZE)
    requires x2 == 0 || (x2 == HEADER && c in heap && c.addr == t.esp + FRAME_SIZE)
    requires Disjoint(a, TASK_SIZE, t.addr, TASK_SIZE) || t.addr <= a
    requires !(Spared(a, t.addr, TASK_SIZE + x1) && Spared(a, t.esp, FRAME_SIZE + x2))
    ensures Load(n, a + 16) != Code(Terminated) || Load(n, a + 20) != next
  {
    hide Load, Stored, Aligned;
    if !Spared(a, t.addr, TASK_SIZE + x1) {
      if x1 > 0 { HeaderState(n, heap, b, a); }
      assert t.addr == a || t.addr + 4 == a || (x1 > 0 && b.addr <= a + 16 < b.Payload());
    } else {
      if x2 > 0 { HeaderState(n, heap, c, a); }
      assert a + 20 == t.esp || t.esp == a + 16 || t.esp + 4 == a + 16 || t.esp + 8 == a + 16 || t.esp + 12 == a + 16
        || t.esp + 16 == a + 16 || (x2 > 0 && c.addr <= a + 16 < c.Payload());
    }
  }

  /** The words of a freed record that nothing meets are kept. */
  lemma CreateSpares(m: seq<byte>, n: seq<byte>, k: Kernel, entry: nat, trampoline: nat, i: nat, lo: nat, hi: nat)
    requires Inv(k, lo, hi) && TaskCreate(k, entry).1 != -1 && hi <= |m| && Created(m, n, k, entry, trampoline)
    requires 0 < i < |k.ring| && IsReaped(k, k.ring[i])
    requires var t := TaskCreate(k, entry).0.ring[1]; CreateHarmless(k.heap, t.addr, t.esp, k.ring[i].addr)
    ensures var a := k.ring[i].addr;
      a + TASK_SIZE <= |m| == |n| && Load(n, a + 16) == Load(m, a + 16) && Load(n, a + 20) == Load(m, a + 20)
  {
    hide Alloc, Splits, TaskCreate, InHeader, RingInv, Tiles, Aligned, Compact, Stored, RecordAt, InitialFrame, Load,
      Apart, Inv;
    InvParts(k, lo, hi);
    ReapedFinished(k, i, lo, hi);
    var a := k.ring[i].addr;
    ApartAt(k.ring, 0, i);
    var b :| b in k.heap && b.free && b.Payload() <= a && a + TASK_SIZE <= b.End();
    HeapRuns.BlocksDisjoint(k.heap, b, lo, hi);
    forall x | a + 16 <= x < a + 24 ensures n[x] == m[x] {
      NotInHeader(k.heap, lo, hi, x);
      CreateHeaders(k, entry, x);
    }
    SameWords(m, n, a + 16);
    SameWords(m, n, a + 20);
  }

  /** The walk past a freed record, after a successful `task_create`. */
  lemma CreateWalkAt(m: seq<byte>, n: seq<byte>, k: Kernel, entry: nat, trampoline: nat, i: nat, lo: nat, hi: nat)
    requires Inv(k, lo, hi) && TaskCreate(k, entry).1 != -1 && hi <= |m| && RingStored(m, k.ring)
    requires Created(m, n, k, entry, trampoline) && trampoline != Code(Terminated)
    requires 0 < i < |k.ring| && IsReaped(k, k.ring[i])
    ensures var t := TaskCreate(k, entry).0.ring[1];
      WalkAt(n, k.ring[i], NextTask(k.ring, i)) <==> CreateHarmless(k.heap, t.addr, t.esp, k.ring[i].addr)
  {
    hide TaskCreate, Load, NextTask, Inv, CreateHarmless, Created, RingStored;
    InvParts(k, lo, hi);
    ReapedFinished(k, i, lo, hi);
    FreedRecord(m, k, i, lo, hi);
    SameLength(m, n, k, entry, trampoline);
    var t := TaskCreate(k, entry).0.ring[1];
    if CreateHarmless(k.heap, t.addr, t.esp, k.ring[i].addr) {
      CreateSpares(m, n, k, entry, trampoline, i, lo, hi);
    } else {
      CreateSpoiled(m, n, k, entry, trampoline, i, lo, hi);
    }
  }

  lemma CreateSpoiled(m: seq<byte>, n: seq<byte>, k: Kernel, entry: nat, trampoline: nat, i: nat, lo: nat, hi: nat)
    requires Inv(k, lo, hi) && TaskCreate(k, entry).1 != -1 && Created(m, n, k, entry, trampoline)
    requires trampoline != Code(Terminated) && i < |k.ring| && IsReaped(k, k.ring[i])
    requires k.ring[i].addr + TASK_SIZE <= |n|
    requires var t := TaskCreate(k, entry).0.ring[1]; !CreateHarmless(k.heap, t.addr, t.esp, k.ring[i].addr)
    ensures var a := k.ring[i].addr; Load(n, a + 16) != Code(Terminated) || Load(n, a + 20) != NextTask(k.ring, i)
  {
    hide Alloc, Splits, TaskCreate, RingInv, WellFormed, Stored, InitialFrame, Load, Apart, NextTask, RecordAt,
      OnlyTouched, Inv, Disjoint;
    InvParts(k, lo, hi);
    ReapedFinished(k, i, lo, hi);
    RingAddress(k, i);
    RingAddress(k, 0);
    var r, a := TaskCreate(k, entry).0, k.ring[i].addr;
    NewAddresses(k, entry, lo, hi);
    var b, c := CreateRests(k, entry);
    WholeHeap(k.heap, lo, hi);
    RecordBelow(k, entry, a, lo, hi);
    CreateSpoils(n, r.heap, r.ring[1], NextTask(k.ring, 0), trampoline, b, c, a, NextTask(k.ring, i),
                 Extra(k.heap, TASK_SIZE), Extra(Alloc(k.heap, TASK_SIZE).0, TASK_STACK_SIZE));
  }

  lemma NewAddresses(k: Kernel, entry: nat, lo: nat, hi: nat)
    requires k.ring != [] && WellFormed(k.heap, lo, hi) && TaskCreate(k, entry).1 != -1
    ensures var r := TaskCreate(k, entry).0; var t := r.ring[1];
      |r.ring| >= 2 && t.addr % 4 == 0 && t.esp % 4 == 0 && t.state == Ready && Aligned(r.heap)
  {
    hide TaskCreate, Alloc, FirstFit, OwnsBlock, Tiles, Compact;
    CreateOwn(k, entry, lo, hi);
    CreateAllocs(k, entry);
  }

  lemma WholeHeap(heap: seq<Block>, lo: nat, hi: nat)
    requires WellFormed(heap, lo, hi)
    ensures Tiles(heap, lo, hi) && Aligned(heap)
  {
  }

  lemma SameLength(m: seq<byte>, n: seq<byte>, k: Kernel, entry: nat, trampoline: nat)
    requires k.ring != [] && Created(m, n, k, entry, trampoline)
    ensures |n| == |m| && |TaskCreate(k, entry).0.ring| >= 2
  {
  }

  lemma FreedRecord(m: seq<byte>, k: Kernel, i: nat, lo: nat, hi: nat)
    requires Inv(k, lo, hi) && RingStored(m, k.ring) && i < |k.ring| && IsReaped(k, k.ring[i])
    ensures var u := k.ring[i];
      && u.addr + TASK_SIZE <= |m| && u.state.Terminated?
      && Load(m, u.addr + 16) == Code(Terminated) && Load(m, u.addr + 20) == NextTask(k.ring, i)
  {
    hide Load, Inv, RecordAt, NextTask;
    ReapedFinished(k, i, lo, hi);
    assert RecordAt(m, k.ring[i], NextTask(k.ring, i));
    FinishedWords(m, k.ring[i], NextTask(k.ring, i));
  }

  lemma FinishedWords(m: seq<byte>, t: Task, next: nat)
    requires RecordAt(m, t, next) && t.state.Terminated?
    ensures t.addr + TASK_SIZE <= |m| && Load(m, t.addr + 16) == Code(Terminated) && Load(m, t.addr + 20) == next
  {
  }

  /** After a successful `task_create` the links in memory go round the old ring with the new task
      right after the current one, and every finished task is still marked, if and only if what was
      written misses the last two words of every freed record: the new record, the fabricated frame
      and the headers behind them. (No code lies at address 2.) */
  lemma CreateKeepsWalk(m: seq<byte>, n: seq<byte>, k: Kernel, entry: nat, trampoline: nat, lo: nat, hi: nat)
    requires Inv(k, lo, hi) && TaskCreate(k, entry).1 != -1 && hi <= |m| && RingStored(m, k.ring)
    requires Created(m, n, k, entry, trampoline) && trampoline != Code(Terminated)
    ensures var r := TaskCreate(k, entry).0; var t := r.ring[1];
      Walkable(n, r.ring) <==> forall i :: 0 <= i < |k.ring| && IsReaped(k, k.ring[i]) ==>
        CreateHarmless(k.heap, t.addr, t.esp, k.ring[i].addr)
  {
    hide Inv, CreateHarmless, WalkAt, Created, TaskCreate, NextTask, IsReaped;
    InvParts(k, lo, hi);
    CreateHeads(n, k, entry, trampoline, lo, hi, m);
    var r := TaskCreate(k, entry).0;
    var t := r.ring[1];
    forall i | 0 < i < |k.ring|
      ensures r.ring[i + 1] == k.ring[i] && NextTask(r.ring, i + 1) == NextTask(k.ring, i)
      ensures WalkAt(n, k.ring[i], NextTask(k.ring, i)) <==>
        IsReaped(k, k.ring[i]) ==> CreateHarmless(k.heap, t.addr, t.esp, k.ring[i].addr)
    {
      ShiftedAt(k.ring, r.ring, i);
      CreatedWalkAt(m, n, k, entry, trampoline, i, lo, hi);
    }
    assert forall j :: 1 < j < |r.ring| ==> r.ring[j] == k.ring[j - 1];
    assert Walkable(n, r.ring) <==> forall i :: 0 < i < |k.ring| ==> WalkAt(n, k.ring[i], NextTask(k.ring, i)) by {
      WalkShift(n, k.ring, r.ring);
    }
  }

  lemma WalkShift(n: seq<byte>, ring: seq<Task>, ring': seq<Task>)
    requires |ring'| >= 2 && ring != [] && ring' == [ring[0], ring'[1]] + ring[1..]
    requires WalkAt(n, ring'[0], NextTask(ring', 0)) && WalkAt(n, ring'[1], NextTask(ring', 1))
    ensures Walkable(n, ring') <==> forall i :: 0 < i < |ring| ==> WalkAt(n, ring[i], NextTask(ring, i))
  {
    hide WalkAt, NextTask;
    forall i | 0 < i < |ring| ensures ring'[i + 1] == ring[i] && NextTask(ring', i + 1) == NextTask(ring, i) {
      ShiftedAt(ring, ring', i);
    }
    if Walkable(n, ring') {
      forall i | 0 < i < |ring| ensures WalkAt(n, ring[i], NextTask(ring, i)) {
        assert WalkAt(n, ring'[i + 1], NextTask(ring', i + 1));
      }
    }
    if forall i :: 0 < i < |ring| ==> WalkAt(n, ring[i], NextTask(ring, i)) {
      forall j | 0 <= j < |ring'| ensures WalkAt(n, ring'[j], NextTask(ring', j)) {
        if j > 1 { assert WalkAt(n, ring[j - 1], NextTask(ring, j - 1)); }
      }
    }
  }

  /** The current task and the new one are walked correctly in any case. */
  lemma CreateHeads(n: seq<byte>, k: Kernel, entry: nat, trampoline: nat, lo: nat, hi: nat, m: seq<byte>)
    requires Inv(k, lo, hi) && TaskCreate(k, entry).1 != -1 && Created(m, n, k, entry, trampoline)
    ensures var r := TaskCreate(k, entry).0;
      && |r.ring| >= 2 && r.ring == [k.ring[0], r.ring[1]] + k.ring[1..]
      && WalkAt(n, r.ring[0], NextTask(r.ring, 0)) && WalkAt(n, r.ring[1], NextTask(r.ring, 1))
  {
    hide Inv, RecordAt, WalkAt, TaskCreate, Created, NextTask;
    InvParts(k, lo, hi);
    CreatedHeads(m, n, k, entry, trampoline, lo, hi);
    var r := TaskCreate(k, entry).0;
    RecordWalk(n, r.ring[0], NextTask(r.ring, 0));
    RecordWalk(n, r.ring[1], NextTask(r.ring, 1));
  }

  lemma CreatedWalkAt(m: seq<byte>, n: seq<byte>, k: Kernel, entry: nat, trampoline: nat, i: nat, lo: nat, hi: nat)
    requires Inv(k, lo, hi) && TaskCreate(k, entry).1 != -1 && hi <= |m| && RingStored(m, k.ring)
    requires Created(m, n, k, entry, trampoline) && trampoline != Code(Terminated) && 0 < i < |k.ring|
    ensures var t := TaskCreate(k, entry).0.ring[1];
      WalkAt(n, k.ring[i], NextTask(k.ring, i)) <==>
        IsReaped(k, k.ring[i]) ==> CreateHarmless(k.heap, t.addr, t.esp, k.ring[i].addr)
  {
    hide Inv, CreateHarmless, WalkAt, Created, TaskCreate, NextTask, RecordAt;
    if IsReaped(k, k.ring[i]) {
      CreateWalkAt(m, n, k, entry, trampoline, i, lo, hi);
    } else {
      LiveClear(k, entry, i, lo, hi);
      RecordKept(m, n, k, entry, trampoline, i, lo, hi);
      RecordWalk(n, k.ring[i], NextTask(k.ring, i));
    }
  }
}
