/** The `alloctest` command of shell.c: three allocations, stores into two of them, three frees.
    When an allocation fails it returns at once and keeps what it has already obtained. */
module AllocTest {
  import opened Bits
  import opened Memory
  import opened HeapSpec
  import opened HeapLaws
  import HeapRuns
  import opened HeapOwners
  import opened Heap
  import opened HeapPayloads
  import opened RamFs

  /** The pointers of the three allocations and the list after them. */
  function ThreeAllocs(heap: seq<Block>): (seq<Block>, nat, nat, nat) {
    var (h1, a) := HeapSpec.Kmalloc(heap, 32);
    var (h2, b) := HeapSpec.Kmalloc(h1, 128);
    var (h3, c) := HeapSpec.Kmalloc(h2, 40);
    (h3, a, b, c)
  }

  /** The heap list after `alloctest`. */
  function Run(heap: seq<Block>): seq<Block> {
    var (h, a, b, c) := ThreeAllocs(heap);
    if a == 0 || b == 0 || c == 0 then h
    else HeapSpec.Kfree(HeapSpec.Kfree(HeapSpec.Kfree(h, a), b), c)
  }

  // ----- What it leaves behind -----

  lemma {:induction false} NoneFits(bs: seq<Block>, n: nat, m: nat)
    requires FirstFit(bs, n) == |bs| && n <= m
    ensures FirstFit(bs, m) == |bs|
  {
    if bs != [] { NoneFits(bs[1..], n, m); }
  }

  /** A larger request fails where a smaller one fails. */
  lemma LargerFails(bs: seq<Block>, n: nat, m: nat, lo: nat, hi: nat)
    requires WellFormed(bs, lo, hi) && 0 < n <= m <= WORD - 8 && HeapSpec.Kmalloc(bs, n).1 == 0
    ensures HeapSpec.Kmalloc(bs, m) == (bs, 0)
  {
    hide AlignUp;
    AlignUp8(n);
    AlignUp8(m);
    RoundedOrder(n, m, AlignUp(n, 8), AlignUp(m, 8));
    NoneFits(bs, AlignUp(n, 8), AlignUp(m, 8));
  }

  lemma RoundedOrder(n: nat, m: nat, x: nat, y: nat)
    requires n <= m && n <= x < n + 8 && m <= y < m + 8 && x % 8 == 0 && y % 8 == 0
    ensures x <= y
  {
  }

  /** After three successes the three blocks are live, and freeing them restores the list. */
  lemma AllFreed(heap: seq<Block>, lo: nat, hi: nat)
    requires WellFormed(heap, lo, hi)
    ensures var (h, a, b, c) := ThreeAllocs(heap);
      a != 0 && b != 0 && c != 0 ==>
        && Freeable(h, a) && Freeable(HeapSpec.Kfree(h, a), b) && Freeable(HeapSpec.Kfree(HeapSpec.Kfree(h, a), b), c)
        && Run(heap) == heap
        && Extends(heap, HeapSpec.Kfree(h, a)) && Extends(heap, HeapSpec.Kfree(HeapSpec.Kfree(h, a), b))
  {
    hide HeapSpec.Kmalloc, HeapSpec.Kfree, WellFormed;
    var (h, a, b, c) := ThreeAllocs(heap);
    var first, second, third := Obtained(heap, lo, hi);
    if a != 0 && b != 0 && c != 0 {
      KfreeStep(h, first, lo, hi);
      KfreeStep(HeapSpec.Kfree(h, a), second, lo, hi);
      KfreeStep(HeapSpec.Kfree(HeapSpec.Kfree(h, a), b), third, lo, hi);
      assert Live(Run(heap)) == Live(heap);
      SameLive(Run(heap), heap, lo, hi);
    }
  }

  lemma SameLive(xs: seq<Block>, ys: seq<Block>, lo: nat, hi: nat)
    requires WellFormed(xs, lo, hi) && WellFormed(ys, lo, hi) && Live(xs) == Live(ys)
    ensures xs == ys
  {
    Determined(xs, ys, lo, hi);
  }

  /** The blocks the three allocations obtain. */
  lemma Obtained(heap: seq<Block>, lo: nat, hi: nat) returns (first: Block, second: Block, third: Block)
    requires WellFormed(heap, lo, hi)
    ensures var (h, a, b, c) := ThreeAllocs(heap);
      && WellFormed(h, lo, hi)
      && Live(h) == Live(heap)
           + (if a == 0 then {} else {first}) + (if b == 0 then {} else {second}) + (if c == 0 then {} else {third})
      && (a != 0 ==> first.Payload() == a && first !in Live(heap))
      && (b != 0 ==> second.Payload() == b && second !in Live(heap) && (a != 0 ==> second != first))
      && (c != 0 ==>
            third.Payload() == c && third !in Live(heap) && (a != 0 ==> third != first) && (b != 0 ==> third != second))
  {
    hide HeapSpec.Kmalloc, WellFormed, AlignUp;
    var h1 := HeapSpec.Kmalloc(heap, 32).0;
    var h2 := HeapSpec.Kmalloc(h1, 128).0;
    first := KmallocStep(heap, 32, lo, hi);
    second := KmallocStep(h1, 128, lo, hi);
    third := KmallocStep(h2, 40, lo, hi);
  }

  /** No live block of `before` has been freed. */
  ghost predicate Extends(before: seq<Block>, heap: seq<Block>) {
    forall b :: b in Live(before) ==> b in Live(heap)
  }

  /** `alloctest` leaves the heap list as it was exactly when the first allocation fails, and
      then all three do, or when all three succeed. Otherwise it leaks what it obtained. Nothing
      that was live is freed. */
  lemma LeaksUnlessAllOrNone(heap: seq<Block>, lo: nat, hi: nat)
    requires WellFormed(heap, lo, hi)
    ensures var (h1, a) := HeapSpec.Kmalloc(heap, 32); var (h2, b) := HeapSpec.Kmalloc(h1, 128);
      var c := HeapSpec.Kmalloc(h2, 40).1;
      Run(heap) == heap <==> a == 0 || (b != 0 && c != 0)
    ensures WellFormed(Run(heap), lo, hi) && Extends(heap, Run(heap))
  {
    hide HeapSpec.Kmalloc, HeapSpec.Kfree, WellFormed;
    var (h, a, b, c) := ThreeAllocs(heap);
    var first, second, third := Obtained(heap, lo, hi);
    AllFreed(heap, lo, hi);
    if a == 0 {
      LargerFails(heap, 32, 32, lo, hi);
      LargerFails(heap, 32, 128, lo, hi);
      LargerFails(heap, 32, 40, lo, hi);
    } else if b == 0 || c == 0 {
      assert first in Live(h) && first !in Live(heap);
    }
  }

  /** Two blocks that fill the heap, the first one in use or free. */
  function Two(lo: nat, free: bool): seq<Block> {
    [Block(lo, 64, free), Block(lo + 76, HEAP_SIZE - 88, false)]
  }

  lemma FilledHeap(lo: nat)
    ensures var (h1, p) := HeapSpec.Kmalloc(HeapRuns.Initial(lo), 64);
      HeapSpec.Kmalloc(h1, HEAP_SIZE - 88).0 == Two(lo, false)
  {
    hide AlignUp, HeapSpec.Kmalloc;
    AlignUp8(64);
    AlignUp8(HEAP_SIZE - 88);
    var b, c := Block(lo, HEAP_SIZE - HEADER, true), Block(lo + 76, HEAP_SIZE - 88, true);
    KmallocFirst([], b, [], 64);
    assert [] + [b] + [] == HeapRuns.Initial(lo);
    assert [] + [Block(lo, 64, false), c] + [] == [Block(lo, 64, false)] + [c] + [];
    KmallocFirst([Block(lo, 64, false)], c, [], HEAP_SIZE - 88);
  }

  lemma OneCall(lo: nat, ops: seq<HeapRuns.Op>, prev: seq<Block>, op: HeapRuns.Op)
    requires HeapRuns.Reaches(lo, ops, prev) && HeapRuns.Legal(prev, op)
    ensures HeapRuns.Reaches(lo, ops + [op], HeapRuns.Step(prev, op))
  {
    hide HeapRuns.Step, HeapRuns.Legal;
    assert (ops + [op])[..|ops|] == ops && (ops + [op])[|ops|] == op;
  }

  lemma LeakReached(lo: nat)
    requires lo % 4 == 0
    ensures HeapRuns.Reaches(lo, [HeapRuns.Malloc(64), HeapRuns.Malloc(HEAP_SIZE - 88), HeapRuns.Free(lo + 12)],
                             Two(lo, true))
  {
    hide HeapSpec.Kmalloc, HeapSpec.Kfree, HeapRuns.Reaches;
    var init, a, b := HeapRuns.Initial(lo), HeapRuns.Malloc(64), HeapRuns.Malloc(HEAP_SIZE - 88);
    FilledHeap(lo);
    assert HeapRuns.Reaches(lo, [], init) by { NoCalls(lo); }
    OneCall(lo, [], init, a);
    OneCall(lo, [] + [a], HeapSpec.Kmalloc(init, 64).0, b);
    HeapRuns.ReachableWellFormed(lo, [] + [a] + [b], Two(lo, false));
    FreeNoMerge(Two(lo, false), 0, lo, lo + HEAP_SIZE);
    assert Two(lo, false)[0 := Block(lo, 64, true)] == Two(lo, true);
    assert Two(lo, false)[0] in Live(Two(lo, false));
    OneCall(lo, [] + [a] + [b], Two(lo, false), HeapRuns.Free(lo + 12));
    assert [] + [a] + [b] + [HeapRuns.Free(lo + 12)] == [a, b, HeapRuns.Free(lo + 12)];
  }

  lemma NoCalls(lo: nat)
    ensures HeapRuns.Reaches(lo, [], HeapRuns.Initial(lo))
  {
  }

  /** And it does leak: on this heap, which three calls reach, the first request succeeds and the
      others fail. */
  lemma LeakExists(lo: nat)
    requires lo % 4 == 0
    ensures WellFormed(Two(lo, true), lo, lo + HEAP_SIZE)
    ensures HeapRuns.Reaches(lo, [HeapRuns.Malloc(64), HeapRuns.Malloc(HEAP_SIZE - 88), HeapRuns.Free(lo + 12)],
                             Two(lo, true))
    ensures Run(Two(lo, true)) ==
      [Block(lo, 32, false), Block(lo + 44, 20, true), Block(lo + 76, HEAP_SIZE - 88, false)]
  {
    hide AlignUp, FirstFit, HeapSpec.Kmalloc, HeapRuns.Reaches;
    LeakReached(lo);
    HeapRuns.ReachableWellFormed(lo, [HeapRuns.Malloc(64), HeapRuns.Malloc(HEAP_SIZE - 88), HeapRuns.Free(lo + 12)],
                                 Two(lo, true));
    var b, rest := Block(lo, 64, true), [Block(lo + 76, HEAP_SIZE - 88, false)];
    var h1 := Carve(b, 32) + rest;
    AlignUp8(32);
    KmallocFirst([], b, rest, 32);
    assert [] + [b] + rest == Two(lo, true) && [] + Carve(b, 32) + rest == h1;
    KmallocNone(h1, 128);
    KmallocNone(h1, 40);
  }

  // ----- In memory -----

  lemma AllocGuardsMore(m: seq<byte>, m1: seq<byte>, n: seq<byte>, before: seq<Block>, heap: seq<Block>, size: nat,
                        lo: nat, hi: nat)
    requires WellFormed(heap, lo, hi) && size < WORD && OnlyHeaders(m1, n, HeapSpec.Kmalloc(heap, size).0)
    requires KeepsLive(m, m1, before, lo, hi) && Extends(before, heap)
    ensures WellFormed(HeapSpec.Kmalloc(heap, size).0, lo, hi)
    ensures KeepsLive(m, n, before, lo, hi) && Extends(before, HeapSpec.Kmalloc(heap, size).0)
  {
    hide WellFormed, HeapSpec.Kmalloc, InHeader, AlignUp;
    var _ := KmallocStep(heap, size, lo, hi);
    forall x | 0 <= x < |m| && Guarded(before, lo, hi, x) ensures n[x] == m[x] {
      KmallocFrame(m1, n, heap, size, lo, hi, x);
    }
  }

  lemma FreeGuardsMore(m: seq<byte>, m1: seq<byte>, n: seq<byte>, before: seq<Block>, heap: seq<Block>, lo: nat,
                       hi: nat)
    requires WellFormed(heap, lo, hi) && OnlyHeaders(m1, n, heap)
    requires KeepsLive(m, m1, before, lo, hi) && Extends(before, heap)
    ensures KeepsLive(m, n, before, lo, hi)
  {
    hide WellFormed, InHeader, Guarded;
    forall x | 0 <= x < |m| && Guarded(before, lo, hi, x) ensures n[x] == m[x] {
      FreeGuards(m1, n, heap, before, lo, hi, x);
    }
  }

  /** Where the blocks of `a` and `c` lie, and that nothing live before meets them. */
  lemma Fresh(heap: seq<Block>, lo: nat, hi: nat)
    requires WellFormed(heap, lo, hi)
    ensures var (h, a, b, c) := ThreeAllocs(heap);
      && (a != 0 ==> FreshRange(heap, h, a, 32, lo, hi))
      && (c != 0 ==> FreshRange(heap, h, c, 40, lo, hi))
  {
    hide HeapSpec.Kmalloc, WellFormed, OwnsBlock, FreshRange;
    var h1 := HeapSpec.Kmalloc(heap, 32).0;
    var h2 := HeapSpec.Kmalloc(h1, 128).0;
    var h := HeapSpec.Kmalloc(h2, 40).0;
    var first, second, third := Obtained(heap, lo, hi);
    KmallocFresh(heap, 32, lo, hi);
    KmallocFresh(h1, 128, lo, hi);
    KmallocFresh(h2, 40, lo, hi);
    var (_, a, b, c) := ThreeAllocs(heap);
    if a != 0 {
      KmallocOwns(h1, 128, a, 32, lo, hi);
      KmallocOwns(h2, 40, a, 32, lo, hi);
      IsFresh(heap, h, first, 32, lo, hi);
    }
    if c != 0 { IsFresh(heap, h, third, 40, lo, hi); }
  }

  ghost predicate FreshRange(before: seq<Block>, heap: seq<Block>, p: nat, k: nat, lo: nat, hi: nat) {
    && InPayload(heap, p, k) && p + k <= hi
    && forall x :: p <= x < p + k ==> !Guarded(before, lo, hi, x)
  }

  lemma IsFresh(before: seq<Block>, heap: seq<Block>, b: Block, k: nat, lo: nat, hi: nat)
    requires WellFormed(heap, lo, hi) && Extends(before, heap) && b in Live(heap) && b !in Live(before)
    requires OwnsBlock(heap, b.Payload(), k)
    ensures FreshRange(before, heap, b.Payload(), k, lo, hi)
  {
    NewBlockFacts(heap, b, b.Payload(), k, lo, hi);
    HeapRuns.BlocksDisjoint(heap, b, lo, hi);
  }

  /** Stores inside a fresh range keep the headers and every guarded byte. */
  lemma FreshStored(m: seq<byte>, m1: seq<byte>, n: seq<byte>, before: seq<Block>, heap: seq<Block>, p: nat, k: nat,
                    lo: nat, hi: nat)
    requires WellFormed(heap, lo, hi) && Stored(m1, heap) && FreshRange(before, heap, p, k, lo, hi)
    requires SameOutside(m1, n, p, p + k) && KeepsLive(m, m1, before, lo, hi)
    ensures Stored(n, heap) && KeepsLive(m, n, before, lo, hi)
  {
    hide Stored, InPayload, Guarded;
    WellTiles(heap, lo, hi);
    PayloadStored(m1, n, heap, p, k, lo, hi);
  }

  /** The stores into `a`: 31 letters and a NUL. */
  method WriteLetters(ram: array<byte>, a: nat)
    requires a + 32 <= ram.Length
    modifies ram
    ensures SameOutside(old(ram[..]), ram[..], a, a + 32)
    ensures (forall i :: 0 <= i < 31 ==> ram[a + i] == 65 + i % 26) && ram[a + 31] == 0
  {
    for i := 0 to 31
      invariant SameOutside(old(ram[..]), ram[..], a, a + 32)
      invariant forall j :: 0 <= j < i ==> ram[a + j] == 65 + j % 26
    {
      ram[a + i] := 65 + i % 26;
    }
    ram[a + 31] := 0;
  }

  /** The stores into `c`: ten squares. */
  method WriteSquares(ram: array<byte>, c: nat)
    requires c + 40 <= ram.Length
    modifies ram
    ensures SameOutside(old(ram[..]), ram[..], c, c + 40)
    ensures forall i :: 0 <= i < 10 ==> Load(ram[..], c + 4 * i) == i * i
  {
    hide Load;
    for i := 0 to 10
      invariant SameOutside(old(ram[..]), ram[..], c, c + 40)
      invariant forall j :: 0 <= j < i ==> Load(ram[..], c + 4 * j) == j * j
    {
      ghost var m := ram[..];
      SquareFits(i);
      Store(ram, c + 4 * i, i * i);
      forall j | 0 <= j < i ensures Load(ram[..], c + 4 * j) == j * j {
        LoadFrame(m, ram[..], c + 4 * i, c + 4 * i + 4, c + 4 * j);
      }
    }
  }

  lemma SquareFits(i: nat)
    requires i < 10
    ensures 0 <= i * i < WORD
  {
    assert i * i <= 10 * i;
  }

  /** `cmd_alloctest`. */
  method CmdAllocTest(heap: Heap)
    requires heap.Valid()
    modifies heap`blocks, heap.ram
    ensures heap.Valid() && heap.blocks == Run(old(heap.blocks))
    ensures KeepsLive(old(heap.ram[..]), heap.ram[..], old(heap.blocks), heap.heapBaseAddr, heap.Limit())
  {
    hide Stored, WellFormed, HeapSpec.Kmalloc, HeapSpec.Kfree, KeepsLive, Extends, OnlyHeaders, FreshRange,
      SameOutside, Freeable;
    ghost var m, bs, lo, hi := heap.ram[..], heap.blocks, heap.heapBaseAddr, heap.Limit();
    KeepsAll(m, bs, lo, hi);
    ExtendsSelf(bs);
    AllFreed(bs, lo, hi);
    Fresh(bs, lo, hi);
    var a := heap.Kmalloc(32);
    AllocGuardsMore(m, m, heap.ram[..], bs, bs, 32, lo, hi);
    ghost var h1, m1 := heap.blocks, heap.ram[..];
    var b := heap.Kmalloc(128);
    AllocGuardsMore(m, m1, heap.ram[..], bs, h1, 128, lo, hi);
    ghost var h2, m2 := heap.blocks, heap.ram[..];
    var c := heap.Kmalloc(40);
    AllocGuardsMore(m, m2, heap.ram[..], bs, h2, 40, lo, hi);
    if a == 0 || b == 0 || c == 0 { return; }
    FillTwo(heap, a, c, m, bs);
    FreeThree(heap, a, b, c, m, bs);
  }

  method FillTwo(heap: Heap, a: nat, c: nat, ghost m: seq<byte>, ghost bs: seq<Block>)
    requires heap.Valid() && KeepsLive(m, heap.ram[..], bs, heap.heapBaseAddr, heap.Limit())
    requires FreshRange(bs, heap.blocks, a, 32, heap.heapBaseAddr, heap.Limit())
    requires FreshRange(bs, heap.blocks, c, 40, heap.heapBaseAddr, heap.Limit())
    modifies heap.ram
    ensures heap.Valid() && KeepsLive(m, heap.ram[..], bs, heap.heapBaseAddr, heap.Limit())
  {
    hide Stored, WellFormed, KeepsLive, SameOutside, InPayload, Guarded;
    ghost var lo, hi, m1 := heap.heapBaseAddr, heap.Limit(), heap.ram[..];
    WriteLetters(heap.ram, a);
    ghost var m2 := heap.ram[..];
    FreshStored(m, m1, m2, bs, heap.blocks, a, 32, lo, hi);
    WriteSquares(heap.ram, c);
    FreshStored(m, m2, heap.ram[..], bs, heap.blocks, c, 40, lo, hi);
  }

  method FreeThree(heap: Heap, a: nat, b: nat, c: nat, ghost m: seq<byte>, ghost bs: seq<Block>)
    requires heap.Valid() && KeepsLive(m, heap.ram[..], bs, heap.heapBaseAddr, heap.Limit())
    requires Extends(bs, heap.blocks) && Freeable(heap.blocks, a) && Freeable(HeapSpec.Kfree(heap.blocks, a), b)
    requires Freeable(HeapSpec.Kfree(HeapSpec.Kfree(heap.blocks, a), b), c)
    requires Extends(bs, HeapSpec.Kfree(heap.blocks, a))
      && Extends(bs, HeapSpec.Kfree(HeapSpec.Kfree(heap.blocks, a), b))
    modifies heap`blocks, heap.ram
    ensures heap.Valid()
    ensures heap.blocks == HeapSpec.Kfree(HeapSpec.Kfree(HeapSpec.Kfree(old(heap.blocks), a), b), c)
    ensures KeepsLive(m, heap.ram[..], bs, heap.heapBaseAddr, heap.Limit())
  {
    hide Stored, WellFormed, HeapSpec.Kfree, KeepsLive, Extends, OnlyHeaders, Freeable;
    ghost var lo, hi, h, m1 := heap.heapBaseAddr, heap.Limit(), heap.blocks, heap.ram[..];
    heap.Kfree(a);
    FreeGuardsMore(m, m1, heap.ram[..], bs, h, lo, hi);
    ghost var h2, m2 := heap.blocks, heap.ram[..];
    heap.Kfree(b);
    FreeGuardsMore(m, m2, heap.ram[..], bs, h2, lo, hi);
    ghost var h3, m3 := heap.blocks, heap.ram[..];
    heap.Kfree(c);
    FreeGuardsMore(m, m3, heap.ram[..], bs, h3, lo, hi);
  }

  lemma ExtendsSelf(bs: seq<Block>)
    ensures Extends(bs, bs)
  {
  }
}
