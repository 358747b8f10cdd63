/** Theorems about whole runs of the allocator: history independence, first-fit
    completeness, disjointness and conservation. */
module HeapRuns {
  import opened Collections
  import opened Bits
  import opened HeapSpec
  import opened HeapLaws

  datatype Op = Malloc(n: nat) | Free(p: nat)

  function Initial(lo: nat): seq<Block> {
    [Block(lo, HEAP_SIZE - HEADER, true)]
  }

  ghost predicate Legal(bs: seq<Block>, op: Op) {
    match op
    case Malloc(n) => n < WORD
    case Free(p) => Freeable(bs, p)
  }

  function Step(bs: seq<Block>, op: Op): seq<Block>
    requires op.Malloc? ==> op.n < WORD
  {
    match op
    case Malloc(n) => Kmalloc(bs, n).0
    case Free(p) => Kfree(bs, p)
  }

  /** `bs` is the list after running `ops` on the heap that `heap_init` lays out at `lo`. */
  ghost predicate Reaches(lo: nat, ops: seq<Op>, bs: seq<Block>)
    decreases |ops|
  {
    if ops == [] then bs == Initial(lo)
    else
      var last := ops[|ops| - 1];
      exists prev :: Reaches(lo, ops[..|ops| - 1], prev) && Legal(prev, last) && bs == Step(prev, last)
  }

  lemma InitialWellFormed(lo: nat)
    requires lo % 4 == 0
    ensures WellFormed(Initial(lo), lo, lo + HEAP_SIZE) && Live(Initial(lo)) == {}
  {
    TilesOne(Initial(lo)[0]);
  }

  lemma StepWellFormed(bs: seq<Block>, op: Op, lo: nat, hi: nat)
    requires WellFormed(bs, lo, hi) && Legal(bs, op)
    ensures WellFormed(Step(bs, op), lo, hi)
  {
    match op
    case Malloc(n) =>
      var _ := KmallocStep(bs, n, lo, hi);
    case Free(p) =>
      if p != 0 {
        var b :| b in Live(bs) && b.Payload() == p;
        KfreeStep(bs, b, lo, hi);
      }
  }

  /** In every reachable state the list tiles the heap in address order, every address and
      size is a multiple of 4 and no two neighbours are both free. */
  lemma {:induction false} ReachableWellFormed(lo: nat, ops: seq<Op>, bs: seq<Block>)
    requires lo % 4 == 0 && Reaches(lo, ops, bs)
    ensures WellFormed(bs, lo, lo + HEAP_SIZE)
    decreases |ops|
  {
    if ops == [] {
      InitialWellFormed(lo);
    } else {
      var last := ops[|ops| - 1];
      var prev :| Reaches(lo, ops[..|ops| - 1], prev) && Legal(prev, last) && bs == Step(prev, last);
      ReachableWellFormed(lo, ops[..|ops| - 1], prev);
      StepWellFormed(prev, last, lo, lo + HEAP_SIZE);
    }
  }

  // ----- History independence -----

  /** Two runs that leave the same blocks live leave the same list, whatever their history. */
  lemma HistoryIndependence(lo: nat, ops: seq<Op>, ops': seq<Op>, bs: seq<Block>, bs': seq<Block>)
    requires lo % 4 == 0 && Reaches(lo, ops, bs) && Reaches(lo, ops', bs')
    requires Live(bs) == Live(bs')
    ensures bs == bs'
  {
    ReachableWellFormed(lo, ops, bs);
    ReachableWellFormed(lo, ops', bs');
    Determined(bs, bs', lo, lo + HEAP_SIZE);
  }

  /** Freeing what `kmalloc` just returned restores the exact list. */
  lemma RoundTrip(bs: seq<Block>, n: nat, lo: nat, hi: nat)
    requires WellFormed(bs, lo, hi) && n < WORD
    ensures Kfree(Kmalloc(bs, n).0, Kmalloc(bs, n).1) == bs
  {
    var (cs, p) := Kmalloc(bs, n);
    var b := KmallocStep(bs, n, lo, hi);
    if p != 0 {
      KfreeStep(cs, b, lo, hi);
      assert Live(bs) + {b} - {b} == Live(bs);
      Determined(Kfree(cs, p), bs, lo, hi);
    }
  }

  function FreeAll(bs: seq<Block>, frees: seq<Block>): seq<Block>
    decreases |frees|
  {
    if frees == [] then bs else FreeAll(Kfree(bs, frees[0].Payload()), frees[1..])
  }

  lemma {:induction false} FreeAllLive(bs: seq<Block>, frees: seq<Block>, lo: nat, hi: nat)
    requires WellFormed(bs, lo, hi) && Distinct(frees) && Elements(frees) <= Live(bs)
    ensures WellFormed(FreeAll(bs, frees), lo, hi)
    ensures Live(FreeAll(bs, frees)) == Live(bs) - Elements(frees)
    decreases |frees|
  {
    if frees == [] {
    } else {
      DistinctTail(frees);
      assert frees[0] in Elements(frees);
      KfreeStep(bs, frees[0], lo, hi);
      FreeAllLive(Kfree(bs, frees[0].Payload()), frees[1..], lo, hi);
    }
  }

  /** Any order of freeing the same live blocks gives the same list. */
  lemma FreeOrderIrrelevant(bs: seq<Block>, frees: seq<Block>, frees': seq<Block>, lo: nat, hi: nat)
    requires WellFormed(bs, lo, hi) && Distinct(frees) && Elements(frees) <= Live(bs)
    requires multiset(frees) == multiset(frees')
    ensures FreeAll(bs, frees) == FreeAll(bs, frees')
  {
    SameElements(frees, frees');
    FreeAllLive(bs, frees, lo, hi);
    FreeAllLive(bs, frees', lo, hi);
    Determined(FreeAll(bs, frees), FreeAll(bs, frees'), lo, hi);
  }

  /** Freeing everything, in any order, yields the single free block of `heap_init`: no
      sequence of calls leaks. */
  lemma FreeEverything(lo: nat, ops: seq<Op>, bs: seq<Block>, frees: seq<Block>)
    requires lo % 4 == 0 && Reaches(lo, ops, bs)
    requires Distinct(frees) && Elements(frees) == Live(bs)
    ensures FreeAll(bs, frees) == Initial(lo)
  {
    ReachableWellFormed(lo, ops, bs);
    FreeAllLive(bs, frees, lo, lo + HEAP_SIZE);
    InitialWellFormed(lo);
    Determined(FreeAll(bs, frees), Initial(lo), lo, lo + HEAP_SIZE);
  }

  // ----- First-fit completeness -----

  /** `[s, e)` is a maximal stretch between live blocks, headers counted as occupied. */
  ghost predicate Gap(live: set<Block>, lo: nat, hi: nat, s: int, e: int) {
    && lo <= s < e <= hi
    && (s == lo || exists b :: b in live && b.End() == s)
    && (e == hi || exists b :: b in live && b.addr == e)
    && forall b :: b in live ==> b.End() <= s || e <= b.addr
  }

  /** A gap that starts at `s` has room for a header and `size` bytes. */
  ghost predicate Room(live: set<Block>, lo: nat, hi: nat, size: nat, s: int) {
    exists e :: Gap(live, lo, hi, s, e) && e - s >= HEADER + size
  }

  lemma FreeIsGap(bs: seq<Block>, lo: nat, hi: nat, i: nat)
    requires WellFormed(bs, lo, hi) && i < |bs| && bs[i].free
    ensures Gap(Live(bs), lo, hi, bs[i].addr, bs[i].End())
  {
    TilesOrder(bs, lo, hi, i, i);
    TilesOrder(bs, lo, hi, 0, i);
    if i > 0 {
      TilesOrder(bs, lo, hi, i - 1, i);
      assert bs[i - 1] in Live(bs);
    }
    if i + 1 < |bs| {
      TilesOrder(bs, lo, hi, i, i + 1);
      assert bs[i + 1] in Live(bs);
    }
    forall b | b in Live(bs) ensures b.End() <= bs[i].addr || bs[i].End() <= b.addr {
      var k :| 0 <= k < |bs| && bs[k] == b;
      if k < i { TilesOrder(bs, lo, hi, k, i); } else { TilesOrder(bs, lo, hi, i, k); }
    }
  }

  lemma {:induction false} Locate(bs: seq<Block>, lo: nat, hi: nat, x: nat) returns (i: nat)
    requires Tiles(bs, lo, hi) && lo <= x < hi
    ensures i < |bs| && bs[i].addr <= x < bs[i].End()
  {
    if x < bs[0].End() {
      i := 0;
    } else {
      i := Locate(bs[1..], bs[0].End(), hi, x);
      i := i + 1;
    }
  }

  lemma GapIsFree(bs: seq<Block>, lo: nat, hi: nat, s: int, e: int) returns (i: nat)
    requires WellFormed(bs, lo, hi) && Gap(Live(bs), lo, hi, s, e)
    ensures i < |bs| && bs[i].free && bs[i].addr == s && bs[i].End() == e
  {
    i := Locate(bs, lo, hi, s);
    TilesOrder(bs, lo, hi, i, i);
    assert bs[i] in bs;
    if i + 1 < |bs| {
      TilesOrder(bs, lo, hi, i, i + 1);
      assert !bs[i + 1].free && bs[i + 1] in Live(bs);
    }
    forall b | b in Live(bs) ensures b.End() <= bs[i].addr || bs[i].End() <= b.addr {
      var k :| 0 <= k < |bs| && bs[k] == b;
      if k < i { TilesOrder(bs, lo, hi, k, i); } else { TilesOrder(bs, lo, hi, i, k); }
    }
  }

  /** `kmalloc(n)` returns NULL exactly when no gap between live blocks has room; otherwise
      it takes the start of the lowest gap that has. */
  lemma FirstFitComplete(bs: seq<Block>, n: nat, lo: nat, hi: nat)
    requires WellFormed(bs, lo, hi) && 0 < n < WORD
    ensures var p, size := Kmalloc(bs, n).1, AlignUp(n, 8);
      && (p == 0 <==> forall s: int :: !Room(Live(bs), lo, hi, size, s))
      && (p != 0 ==> p >= HEADER && Room(Live(bs), lo, hi, size, p - HEADER))
      && (p != 0 ==> forall s: int :: s < p - HEADER ==> !Room(Live(bs), lo, hi, size, s))
  {
    FirstGap(bs, AlignUp(n, 8), lo, hi);
  }

  lemma FirstGap(bs: seq<Block>, size: nat, lo: nat, hi: nat)
    requires WellFormed(bs, lo, hi)
    ensures var p := Alloc(bs, size).1;
      && (p == 0 <==> forall s: int :: !Room(Live(bs), lo, hi, size, s))
      && (p != 0 ==> p >= HEADER && Room(Live(bs), lo, hi, size, p - HEADER))
      && (p != 0 ==> forall s: int :: s < p - HEADER ==> !Room(Live(bs), lo, hi, size, s))
  {
    var i := FirstFit(bs, size);
    if i < |bs| {
      FreeIsGap(bs, lo, hi, i);
      assert Room(Live(bs), lo, hi, size, bs[i].addr);
    }
    forall s: int | Room(Live(bs), lo, hi, size, s) ensures i < |bs| && bs[i].addr <= s {
      var e :| Gap(Live(bs), lo, hi, s, e) && e - s >= HEADER + size;
      var k := GapIsFree(bs, lo, hi, s, e);
      assert Fits(bs[k], size);
      if i < k { TilesOrder(bs, lo, hi, i, k); }
    }
  }

  /** What `kmalloc(n)` grants, from the live blocks alone. With the gap it is taken from ending at
      `e`: the whole gap when less than 28 bytes would be left over, a header and 16 bytes, and
      otherwise exactly the rounded request. A request for nothing yields NULL. */
  lemma GrantedBlock(bs: seq<Block>, n: nat, lo: nat, hi: nat, e: int) returns (b: Block)
    requires WellFormed(bs, lo, hi) && n < WORD
    requires Kmalloc(bs, n).1 != 0 ==> Gap(Live(bs), lo, hi, Kmalloc(bs, n).1 - 12, e)
    ensures n == 0 ==> Kmalloc(bs, n) == (bs, 0)
    ensures var (cs, p) := Kmalloc(bs, n); p != 0 ==>
      && Live(cs) == Live(bs) + {b} && b.addr == p - 12 && p == b.addr + 12
      && b.addr + 12 + b.size == if e - p - AlignUp(n, 8) < 28 then e else p + AlignUp(n, 8)
  {
    hide AlignUp, Gap, Tiles, Compact, Aligned, FirstFit;
    b := KmallocStep(bs, n, lo, hi);
    var p, size := Kmalloc(bs, n).1, AlignUp(n, 8);
    if p != 0 {
      var i := FirstFit(bs, size);
      var k := GapIsFree(bs, lo, hi, p - 12, e);
      SameAddress(bs, lo, hi, i, k);
      CarveLive(bs, i, size);
      b := Carve(bs[i], size)[0];
    }
  }

  // ----- Disjointness -----

  /** The range returned lies inside the heap and meets no header and no other live block.
      It is at least as long as requested exactly when the rounding did not wrap. */
  lemma KmallocDisjoint(bs: seq<Block>, n: nat, lo: nat, hi: nat) returns (b: Block)
    requires WellFormed(bs, lo, hi) && n < WORD
    ensures var (cs, p) := Kmalloc(bs, n); p != 0 ==>
      && b in Live(cs) && b.Payload() == p && lo <= p && b.End() <= hi
      && (b.size >= n <==> n <= WORD - 8)
      && forall c :: c in cs && c != b ==> b.End() <= c.addr || c.End() <= b.addr
  {
    var (cs, p) := Kmalloc(bs, n);
    AlignUp8(n);
    b := KmallocStep(bs, n, lo, hi);
    if p != 0 {
      assert b in Live(cs);
      BlocksDisjoint(cs, b, lo, hi);
    }
  }

  /** A request for which the rounding wraps does succeed, with a block of no bytes. */
  lemma WrappedRequestGranted(lo: nat)
    ensures var (cs, p) := Kmalloc(Initial(lo), WORD - 1);
      p == lo + HEADER && cs[0] == Block(lo, 0, false)
  {
    AlignUp8(WORD - 1);
    assert FirstFit(Initial(lo), 0) == 0;
  }

  lemma BlocksDisjoint(bs: seq<Block>, b: Block, lo: nat, hi: nat)
    requires Tiles(bs, lo, hi) && b in bs
    ensures lo <= b.addr && b.End() <= hi
    ensures forall c :: c in bs && c != b ==> b.End() <= c.addr || c.End() <= b.addr
  {
    var i :| 0 <= i < |bs| && bs[i] == b;
    TilesOrder(bs, lo, hi, i, i);
    forall c | c in bs && c != b ensures b.End() <= c.addr || c.End() <= b.addr {
      var k :| 0 <= k < |bs| && bs[k] == c;
      if k < i { TilesOrder(bs, lo, hi, k, i); } else { TilesOrder(bs, lo, hi, i, k); }
    }
  }
}
