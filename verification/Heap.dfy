/** The allocator of heap.c: headers written in place in physical memory. `blocks` is the
    list the headers spell out; every operation is proved against HeapSpec. */
module Heap {
  import opened Bits
  import opened Memory
  import opened HeapSpec
  import opened HeapLaws
  import HeapRuns

  // ----- How the list lies in memory -----

  function NextAddr(bs: seq<Block>, i: nat): nat {
    if i + 1 < |bs| then bs[i + 1].addr else 0
  }

  ghost predicate HeaderAt(m: seq<byte>, b: Block, next: nat) {
    && b.Payload() <= |m|
    && Load(m, b.addr) == b.size
    && Load(m, b.addr + 4) == (if b.free then 1 else 0)
    && Load(m, b.addr + 8) == next
  }

  ghost predicate Stored(m: seq<byte>, bs: seq<Block>) {
    forall i :: 0 <= i < |bs| ==> HeaderAt(m, bs[i], NextAddr(bs, i))
  }

  /** `x` is a byte of some block header. */
  ghost predicate InHeader(bs: seq<Block>, x: int) {
    exists b :: b in bs && b.addr <= x < b.Payload()
  }

  /** Nothing changed except bytes of the headers of `bs`. */
  ghost predicate OnlyHeaders(m: seq<byte>, n: seq<byte>, bs: seq<Block>) {
    && |n| == |m|
    && forall x :: 0 <= x < |m| && !InHeader(bs, x) ==> n[x] == m[x]
  }

  lemma HeaderFrame(m: seq<byte>, n: seq<byte>, lo: int, hi: int, b: Block, next: nat)
    requires SameOutside(m, n, lo, hi) && HeaderAt(m, b, next)
    requires b.Payload() <= lo || hi <= b.addr
    ensures HeaderAt(n, b, next)
  {
    LoadFrame(m, n, lo, hi, b.addr);
    LoadFrame(m, n, lo, hi, b.addr + 4);
    LoadFrame(m, n, lo, hi, b.addr + 8);
  }

  lemma HeadersFrame(m: seq<byte>, n: seq<byte>, bs: seq<Block>, i: nat, j: nat, lo: nat, hi: nat)
    requires Tiles(bs, lo, hi) && Stored(m, bs) && i < j <= |bs|
    requires SameOutside(m, n, bs[i].addr, bs[j - 1].End())
    ensures forall k :: 0 <= k < |bs| && !(i <= k < j) ==> HeaderAt(n, bs[k], NextAddr(bs, k))
  {
    forall k | 0 <= k < |bs| && !(i <= k < j) ensures HeaderAt(n, bs[k], NextAddr(bs, k)) {
      assert HeaderAt(m, bs[k], NextAddr(bs, k));
      OutsideExtent(bs, i, j, k, lo, hi);
      HeaderFrame(m, n, bs[i].addr, bs[j - 1].End(), bs[k], NextAddr(bs, k));
    }
  }

  lemma OutsideExtent(bs: seq<Block>, i: nat, j: nat, k: nat, lo: nat, hi: nat)
    requires Tiles(bs, lo, hi) && i < j <= |bs| && k < |bs| && !(i <= k < j)
    ensures bs[k].Payload() <= bs[i].addr || bs[j - 1].End() <= bs[k].addr
  {
    if k < i { TilesOrder(bs, lo, hi, k, i); } else { TilesOrder(bs, lo, hi, j - 1, k); }
  }

  /** Rewriting the headers of the blocks `i..j` in place, inside their own extent, stores
      the list in which they are replaced by `r`. */
  lemma Splice(m: seq<byte>, n: seq<byte>, bs: seq<Block>, i: nat, j: nat, r: seq<Block>, lo: nat, hi: nat)
    requires Tiles(bs, lo, hi) && Stored(m, bs) && i < j <= |bs| && r != []
    requires SameOutside(m, n, bs[i].addr, bs[j - 1].End())
    requires r[0].addr == bs[i].addr
    requires forall k :: 0 <= k < |r| ==>
      HeaderAt(n, r[k], if k + 1 < |r| then r[k + 1].addr else NextAddr(bs, j - 1))
    ensures Stored(n, bs[..i] + r + bs[j..])
  {
    HeadersFrame(m, n, bs, i, j, lo, hi);
    var cs := bs[..i] + r + bs[j..];
    forall k | 0 <= k < |cs| ensures HeaderAt(n, cs[k], NextAddr(cs, k)) {
      SpliceIndex(bs, i, j, r, k);
    }
  }

  lemma SpliceIndex(bs: seq<Block>, i: nat, j: nat, r: seq<Block>, k: nat)
    requires i < j <= |bs| && r != [] && r[0].addr == bs[i].addr && k < i + |r| + |bs| - j
    ensures var cs := bs[..i] + r + bs[j..];
      && (k < i ==> cs[k] == bs[k] && NextAddr(cs, k) == NextAddr(bs, k))
      && (i <= k < i + |r| ==>
          && cs[k] == r[k - i]
          && NextAddr(cs, k) == if k - i + 1 < |r| then r[k - i + 1].addr else NextAddr(bs, j - 1))
      && (i + |r| <= k ==> cs[k] == bs[k - |r| - i + j] && NextAddr(cs, k) == NextAddr(bs, k - |r| - i + j))
  {
  }

  /** The stores of `kmalloc` into a block that fits. */
  method CarveInPlace(ram: array<byte>, cur: nat, size: nat, ghost b: Block, ghost next: nat)
    requires HeaderAt(ram[..], b, next) && cur == b.addr && b.End() <= ram.Length <= WORD
    requires Fits(b, size) && next < WORD
    modifies ram
    ensures var r := Carve(b, size);
      && HeaderAt(ram[..], r[0], if |r| == 2 then r[1].addr else next)
      && (|r| == 2 ==> HeaderAt(ram[..], r[1], next))
      && OnlyHeaders(old(ram[..]), ram[..], r)
  {
    ghost var r, m := Carve(b, size), ram[..];
    var remaining := Word(ram, cur) - size;
    if remaining >= HEADER + MIN_BLOCK_DATA {
      var newBlock := cur + HEADER + size;
      StoreThreeWords(ram, newBlock, remaining - HEADER, 1, Word(ram, cur + 8));
      assert HeaderAt(ram[..], r[1], next);
      ghost var m1 := ram[..];
      StoreThreeWords(ram, cur, size, 0, newBlock);
      HeaderFrame(m1, ram[..], cur, cur + HEADER, r[1], next);
      assert r[0] in r && r[1] in r;
    } else {
      hide Load, Word;
      Store(ram, cur + 4, 0);
      LoadFrame(m, ram[..], cur + 4, cur + 8, cur);
      LoadFrame(m, ram[..], cur + 4, cur + 8, cur + 8);
      assert r[0] in r;
    }
  }

  /** Stores three fields that follow each other. */
  method StoreThreeWords(ram: array<byte>, a: nat, size: nat, free: nat, next: nat)
    requires a + HEADER <= ram.Length && size < WORD && free < WORD && next < WORD
    modifies ram
    ensures Load(ram[..], a) == size && Load(ram[..], a + 4) == free && Load(ram[..], a + 8) == next
    ensures SameOutside(old(ram[..]), ram[..], a, a + HEADER)
  {
    Store(ram, a, size);
    ghost var m1 := ram[..];
    Store(ram, a + 4, free);
    ghost var m2 := ram[..];
    LoadFrame(m1, m2, a + 4, a + 8, a);
    Store(ram, a + 8, next);
    LoadFrame(m2, ram[..], a + 8, a + 12, a);
    LoadFrame(m2, ram[..], a + 8, a + 12, a + 4);
  }

  class Heap {
    const ram: array<byte>
    var heapStart: nat
    var heapBaseAddr: nat
    var heapTotalSize: nat
    ghost var blocks: seq<Block>

    ghost predicate Valid()
      reads this, ram
    {
      && 0 < heapBaseAddr == heapStart && heapTotalSize == HEAP_SIZE
      && Limit() <= ram.Length <= WORD
      && WellFormed(blocks, heapBaseAddr, Limit())
      && Stored(ram[..], blocks)
    }

    ghost function Limit(): nat
      reads this
    {
      heapBaseAddr + HEAP_SIZE
    }

    /** `heap_init`: one free block that fills the heap. */
    constructor (ram: array<byte>, kernelEnd: nat)
      requires 0 < kernelEnd && kernelEnd + 4095 + HEAP_SIZE <= ram.Length <= WORD
      modifies ram
      ensures Valid() && this.ram == ram
      ensures heapBaseAddr == AlignUp(kernelEnd, 4096) && kernelEnd <= heapBaseAddr < kernelEnd + 4096
      ensures blocks == HeapRuns.Initial(heapBaseAddr)
      ensures SameOutside(old(ram[..]), ram[..], heapBaseAddr, heapBaseAddr + HEADER)
    {
      hide AlignUp, Load, Stored, Tiles, Compact, Aligned;
      this.ram := ram;
      AlignUpPage(kernelEnd);
      var base := AlignUp(kernelEnd, 4096);
      heapBaseAddr, heapTotalSize, heapStart := base, HEAP_SIZE, base;
      blocks := HeapRuns.Initial(base);
      new;
      HeapRuns.InitialWellFormed(base);
      StoreThreeWords(ram, base, HEAP_SIZE - HEADER, 1, 0);
      InitialStored(ram[..], base);
    }

    method Kmalloc(n: nat) returns (p: nat)
      requires Valid() && n < WORD
      modifies this`blocks, ram
      ensures Valid()
      ensures (blocks, p) == HeapSpec.Kmalloc(old(blocks), n)
      ensures p == 0 ==> ram[..] == old(ram[..])
      ensures OnlyHeaders(old(ram[..]), ram[..], blocks)
    {
      hide Load, Word, AlignUp, Stored, Tiles, Compact, Aligned, InHeader, HeaderAt, FirstFit;
      if n == 0 { return 0; }
      AlignUp8(n);
      var size := AlignUp(n, 8);
      var cur := Search(ram, heapStart, size, blocks, Limit());
      if cur == 0 { return 0; }
      ghost var i, m := FirstFit(blocks, size), ram[..];
      HeaderBounds(m, blocks, i, heapBaseAddr, Limit());
      CarveInPlace(ram, cur, size, blocks[i], NextAddr(blocks, i));
      TakeStored(m, ram[..], blocks, i, size, heapBaseAddr, Limit());
      blocks := blocks[..i] + Carve(blocks[i], size) + blocks[i + 1..];
      return cur + HEADER;
    }

    method Kfree(p: nat)
      requires Valid() && Freeable(blocks, p)
      modifies this`blocks, ram
      ensures Valid()
      ensures blocks == HeapSpec.Kfree(old(blocks), p)
      ensures OnlyHeaders(old(ram[..]), ram[..], old(blocks))
      ensures OnlyFreed(old(ram[..]), ram[..], blocks, p)
    {
      hide Load, Word, Stored, Tiles, Compact, Aligned, InHeader, HeaderAt, Release, HeapSpec.Coalesce;
      if p == 0 { return; }
      ghost var b :| b in Live(blocks) && b.Payload() == p;
      ghost var m := ram[..];
      ReleaseBounds(m, blocks, b, heapBaseAddr, Limit());
      var block := p - HEADER;
      Store(ram, block + 4, 1);
      ghost var bs := Release(blocks, block);
      ReleaseStored(m, ram[..], blocks, b, heapBaseAddr, Limit());
      ghost var m1 := ram[..];
      CoalesceInPlace(ram, heapStart, bs, Limit());
      FreedHeaders(m, m1, ram[..], blocks, b);
      CoalesceShape(bs, heapBaseAddr, Limit());
      blocks := HeapSpec.Coalesce(bs);
    }

    /** `heap_get_stats`: one walk along the list. */
    method GetStats() returns (stats: Stats)
      requires Valid()
      ensures stats == StatsOf(blocks)
      ensures stats.total == stats.used + stats.free
      ensures stats.total + HEADER * |blocks| == HEAP_SIZE
    {
      hide Stored, Tiles, StatsOf;
      stats := Walk(ram, heapStart, blocks, Limit());
      Conservation(blocks, heapBaseAddr, Limit());
    }
  }

  function OneStat(b: Block): Stats {
    if b.free then Stats(b.size, 0, b.size, 1) else Stats(b.size, b.size, 0, 0)
  }

  /** The loop of `heap_get_stats`. */
  method Walk(ram: array<byte>, heapStart: nat, ghost bs: seq<Block>, ghost hi: nat) returns (stats: Stats)
    requires bs != [] && Tiles(bs, heapStart, hi) && Stored(ram[..], bs)
    requires 0 < heapStart && hi <= ram.Length <= WORD
    ensures stats == StatsOf(bs)
  {
    hide Load, Word, Tiles, Stored, StatsOf;
    var t: nat, u: nat, f: nat, fb: nat := 0, 0, 0, 0;
    var cur := heapStart;
    ghost var i := 0;
    TilesHead(bs, heapStart, hi);
    StatsSuffix(bs, 0);
    while cur != 0
      invariant 0 <= i <= |bs| && cur == (if i < |bs| then bs[i].addr else 0)
      invariant cur != 0 || i == |bs|
      invariant StatsOf(bs) == Plus(Stats(t, u, f, fb), StatsOf(bs[i..]))
      decreases |bs| - i
    {
      HeaderBounds(ram[..], bs, i, heapStart, hi);
      Bounds(bs, i, heapStart, hi);
      StatsSuffix(bs, i);
      t := t + Word(ram, cur);
      if Word(ram, cur + 4) != 0 {
        f, fb := f + Word(ram, cur), fb + 1;
      } else {
        u := u + Word(ram, cur);
      }
      cur := Word(ram, cur + 8);
      i := i + 1;
    }
    StatsSuffix(bs, i);
    stats := Stats(t, u, f, fb);
  }

  lemma StatsSuffix(bs: seq<Block>, i: nat)
    requires i <= |bs|
    ensures bs[0..] == bs && StatsOf(bs[|bs|..]) == Stats(0, 0, 0, 0)
    ensures i < |bs| ==> StatsOf(bs[i..]) == Plus(OneStat(bs[i]), StatsOf(bs[i + 1..]))
  {
    if i < |bs| { assert bs[i..][1..] == bs[i + 1..]; }
  }

  lemma InitialStored(m: seq<byte>, base: nat)
    requires base + HEADER <= |m|
    requires Load(m, base) == HEAP_SIZE - HEADER && Load(m, base + 4) == 1 && Load(m, base + 8) == 0
    ensures Stored(m, HeapRuns.Initial(base))
  {
  }

  function Plus(a: Stats, b: Stats): Stats {
    Stats(a.total + b.total, a.used + b.used, a.free + b.free, a.freeBlocks + b.freeBlocks)
  }

  // ----- kfree in memory -----

  lemma ReleaseBounds(m: seq<byte>, bs: seq<Block>, b: Block, lo: nat, hi: nat)
    requires WellFormed(bs, lo, hi) && b in Live(bs)
    ensures lo <= b.addr && b.End() <= hi
  {
    var i :| 0 <= i < |bs| && bs[i] == b;
    TilesOrder(bs, lo, hi, i, i);
  }

  /** Setting the `free` field of a header stores the list with that block free. */
  lemma ReleaseStored(m: seq<byte>, n: seq<byte>, bs: seq<Block>, b: Block, lo: nat, hi: nat)
    requires WellFormed(bs, lo, hi) && Stored(m, bs) && b in Live(bs)
    requires SameOutside(m, n, b.addr + 4, b.addr + 8) && Load(n, b.addr + 4) == 1
    ensures var cs := Release(bs, b.addr);
      && cs != [] && Tiles(cs, lo, hi) && Aligned(cs) && Stored(n, cs)
  {
    hide Load, Tiles, Aligned, Compact, Find;
    var i :| 0 <= i < |bs| && bs[i] == b;
    FindIs(bs, lo, hi, i);
    ReleaseShape(bs, i, lo, hi);
    ReleasedHeader(m, n, b, NextAddr(bs, i));
    Splice(m, n, bs, i, i + 1, [b.(free := true)], lo, hi);
    assert Release(bs, b.addr) == bs[..i] + [b.(free := true)] + bs[i + 1..];
  }

  lemma ReleasedHeader(m: seq<byte>, n: seq<byte>, b: Block, next: nat)
    requires HeaderAt(m, b, next)
    requires SameOutside(m, n, b.addr + 4, b.addr + 8) && Load(n, b.addr + 4) == 1
    ensures HeaderAt(n, b.(free := true), next)
  {
    LoadFrame(m, n, b.addr + 4, b.addr + 8, b.addr);
    LoadFrame(m, n, b.addr + 4, b.addr + 8, b.addr + 8);
  }

  /** Nothing changed except headers of the list `cs` that `kfree(p)` leaves, and the header of the
      block that was freed. */
  ghost predicate OnlyFreed(m: seq<byte>, n: seq<byte>, cs: seq<Block>, p: nat) {
    && |n| == |m|
    && forall x :: 0 <= x < |m| && !InHeader(cs, x) && !(p - HEADER <= x < p) ==> n[x] == m[x]
  }

  lemma FreedHeaders(m: seq<byte>, m1: seq<byte>, n: seq<byte>, bs: seq<Block>, b: Block)
    requires b in bs && SameOutside(m, m1, b.addr + 4, b.addr + 8)
    requires OnlyHeaders(m1, n, HeapSpec.Coalesce(Release(bs, b.addr)))
    ensures OnlyHeaders(m, n, bs) && OnlyFreed(m, n, HeapSpec.Coalesce(Release(bs, b.addr)), b.Payload())
  {
    hide Release, HeapSpec.Coalesce;
    forall x | InHeader(HeapSpec.Coalesce(Release(bs, b.addr)), x) ensures InHeader(bs, x) {
      MergedHeaders(bs, b.addr, x);
    }
  }

  /** `kfree` puts a header nowhere new. */
  lemma MergedHeaders(bs: seq<Block>, a: int, x: int)
    requires InHeader(HeapSpec.Coalesce(Release(bs, a)), x)
    ensures InHeader(bs, x)
  {
    var cs := Release(bs, a);
    var c :| c in HeapSpec.Coalesce(cs) && c.addr <= x < c.Payload();
    var b := CoalesceAddrs(cs, c);
    var k :| 0 <= k < |cs| && cs[k] == b;
    assert bs[k].addr == b.addr && bs[k] in bs;
  }

  lemma {:induction false} CoalesceAddrs(bs: seq<Block>, c: Block) returns (b: Block)
    requires c in HeapSpec.Coalesce(bs)
    ensures b in bs && b.addr == c.addr
    decreases |bs|
  {
    if |bs| < 2 {
      b := c;
    } else if bs[0].free && bs[1].free {
      b := CoalesceAddrs([Merge(bs[0], bs[1])] + bs[2..], c);
      if b !in bs { b := bs[0]; }
    } else if c == bs[0] {
      b := c;
    } else {
      b := CoalesceAddrs(bs[1..], c);
    }
  }

  /** What the walk of `coalesce` finds in memory when `rest` lies ahead of it. */
  ghost predicate Ahead(m: seq<byte>, rest: seq<Block>) {
    && rest != [] && rest[0].addr != 0
    && HeaderAt(m, rest[0], NextAddr(rest, 0))
    && (NextAddr(rest, 0) == 0 <==> |rest| == 1)
    && (|rest| >= 2 ==>
        && HeaderAt(m, rest[1], NextAddr(rest, 1)) && NextAddr(rest, 1) < WORD
        && rest[1].addr == rest[0].End() && rest[1].End() <= WORD)
  }

  lemma LookAhead(m: seq<byte>, done: seq<Block>, rest: seq<Block>, lo: nat, hi: nat)
    requires rest != [] && Tiles(done + rest, lo, hi) && Stored(m, done + rest)
    requires 0 < lo && hi <= WORD
    ensures Ahead(m, rest)
  {
    hide Load;
    var bs, i := done + rest, |done|;
    assert bs[i] == rest[0] && NextAddr(bs, i) == NextAddr(rest, 0);
    HeaderBounds(m, bs, i, lo, hi);
    Bounds(bs, i, lo, hi);
    if |rest| >= 2 {
      assert bs[i + 1] == rest[1] && NextAddr(bs, i + 1) == NextAddr(rest, 1);
      HeaderBounds(m, bs, i + 1, lo, hi);
      TilesOrder(bs, lo, hi, i, i + 1);
    }
  }

  /** The two assignments of a merge: `cur` absorbs the block after it. */
  method Absorb(ram: array<byte>, cur: nat, ghost b: Block, ghost c: Block, ghost after: nat)
    requires HeaderAt(ram[..], b, c.addr) && HeaderAt(ram[..], c, after) && cur == b.addr
    requires b.Payload() + b.size == c.addr && c.End() <= WORD && after < WORD
    modifies ram
    ensures HeaderAt(ram[..], Merge(b, c), after)
    ensures SameOutside(old(ram[..]), ram[..], b.addr, b.Payload())
  {
    hide Load, Word, SameOutside;
    ghost var m, d := ram[..], Merge(b, c);
    Store(ram, cur, Word(ram, cur) + HEADER + Word(ram, Word(ram, cur + 8)));
    ghost var m1 := ram[..];
    LoadFrame(m, m1, cur, cur + 4, cur + 4);
    LoadFrame(m, m1, cur, cur + 4, cur + 8);
    LoadFrame(m, m1, cur, cur + 4, c.addr + 8);
    Store(ram, cur + 8, Word(ram, Word(ram, cur + 8) + 8));
    LoadFrame(m1, ram[..], cur + 8, cur + 12, cur);
    LoadFrame(m1, ram[..], cur + 8, cur + 12, cur + 4);
    Widen(m, m1, ram[..], cur, cur + 4, cur + 8, cur + 12);
  }

  lemma Widen(m: seq<byte>, m1: seq<byte>, n: seq<byte>, lo: int, hi: int, lo': int, hi': int)
    requires SameOutside(m, m1, lo, hi) && SameOutside(m1, n, lo', hi') && lo <= hi <= lo' <= hi'
    ensures SameOutside(m, n, lo, hi')
  {
  }

  /** After a merge the memory holds the shorter list, and only a header was written. */
  lemma Merged(m: seq<byte>, n: seq<byte>, done: seq<Block>, rest: seq<Block>, lo: nat, hi: nat)
    requires |rest| >= 2 && Tiles(done + rest, lo, hi) && Stored(m, done + rest)
    requires rest[0].free && rest[1].free
    requires HeaderAt(n, Merge(rest[0], rest[1]), NextAddr(rest, 1))
    requires SameOutside(m, n, rest[0].addr, rest[0].Payload())
    ensures var ms := [Merge(rest[0], rest[1])] + rest[2..];
      Tiles(done + ms, lo, hi) && Stored(n, done + ms)
  {
    hide Load, HeaderAt;
    var bs, i, r := done + rest, |done|, [Merge(rest[0], rest[1])];
    TilesOrder(bs, lo, hi, i, i + 1);
    assert NextAddr(bs, i + 1) == NextAddr(rest, 1);
    Splice(m, n, bs, i, i + 2, r, lo, hi);
    assert bs[..i] + r + bs[i + 2..] == done + (r + rest[2..]);
    MergedTiles(done, rest, lo, hi);
  }

  lemma MergedTiles(done: seq<Block>, rest: seq<Block>, lo: nat, hi: nat)
    requires |rest| >= 2 && Tiles(done + rest, lo, hi)
    ensures Tiles(done + ([Merge(rest[0], rest[1])] + rest[2..]), lo, hi)
  {
    var bs, i, ms := done + rest, |done|, [Merge(rest[0], rest[1])] + rest[2..];
    var mid := TilesSplit(bs, i, lo, hi);
    assert bs[..i] == done && bs[i..] == rest;
    assert rest[1..][1..] == rest[2..] && ms[1..] == rest[2..];
    TilesConcat(done, ms, lo, mid, hi);
  }

  /** A write inside a header of `bs` keeps `OnlyHeaders`. */
  lemma OneMoreHeader(m: seq<byte>, m1: seq<byte>, n: seq<byte>, bs: seq<Block>, b: Block, a: nat)
    requires OnlyHeaders(m, m1, bs) && b in bs && a == b.addr
    requires SameOutside(m1, n, a, a + HEADER)
    ensures OnlyHeaders(m, n, bs)
  {
    assert forall x :: a <= x < a + HEADER ==> InHeader(bs, x);
  }

  /** Merging keeps the address of the first block. */
  lemma {:induction false} CoalesceHead(bs: seq<Block>)
    requires bs != []
    ensures HeapSpec.Coalesce(bs) != [] && HeapSpec.Coalesce(bs)[0].addr == bs[0].addr
    decreases |bs|
  {
    if |bs| >= 2 && bs[0].free && bs[1].free { CoalesceHead([Merge(bs[0], bs[1])] + bs[2..]); }
  }

  /** The loop invariant of `coalesce`: the blocks `done` are final, `rest` lies ahead and
      starts with the current block; only headers that stay have been written. */
  ghost predicate Progress(m0: seq<byte>, m: seq<byte>, bs: seq<Block>, done: seq<Block>, rest: seq<Block>,
                           lo: nat, hi: nat)
  {
    && 0 < lo && hi <= WORD
    && rest != [] && Tiles(done + rest, lo, hi) && Stored(m, done + rest)
    && HeapSpec.Coalesce(bs) == done + HeapSpec.Coalesce(rest)
    && OnlyHeaders(m0, m, HeapSpec.Coalesce(bs))
  }

  lemma ProgressStart(m: seq<byte>, bs: seq<Block>, lo: nat, hi: nat)
    requires bs != [] && Tiles(bs, lo, hi) && Stored(m, bs) && 0 < lo && hi <= WORD
    ensures bs[0].addr == lo && Progress(m, m, bs, [], bs, lo, hi)
  {
    assert [] + bs == bs;
  }

  lemma ProgressAhead(m0: seq<byte>, m: seq<byte>, bs: seq<Block>, done: seq<Block>, rest: seq<Block>, lo: nat, hi: nat)
    requires Progress(m0, m, bs, done, rest, lo, hi)
    ensures rest != [] && rest[0].addr != 0 && rest[0].addr + HEADER <= |m|
    ensures Load(m, rest[0].addr + 8) == 0 <==> |rest| == 1
    ensures |rest| >= 2 ==>
      && Load(m, rest[0].addr + 8) == rest[1].addr && rest[1].Payload() <= |m|
      && (Load(m, rest[0].addr + 4) != 0 <==> rest[0].free)
      && (Load(m, rest[1].addr + 4) != 0 <==> rest[1].free)
      && HeaderAt(m, rest[0], rest[1].addr) && HeaderAt(m, rest[1], NextAddr(rest, 1))
      && NextAddr(rest, 1) < WORD && rest[1].End() <= WORD && rest[1].addr == rest[0].End()
    ensures |rest| == 1 ==> Stored(m, HeapSpec.Coalesce(bs))
    ensures OnlyHeaders(m0, m, HeapSpec.Coalesce(bs))
  {
    hide Load, Tiles, Stored;
    LookAhead(m, done, rest, lo, hi);
    if |rest| == 1 { CoalesceUnfold(done, rest); }
  }

  lemma ProgressMerge(m0: seq<byte>, m: seq<byte>, n: seq<byte>, bs: seq<Block>, done: seq<Block>, rest: seq<Block>,
                      lo: nat, hi: nat)
    requires Progress(m0, m, bs, done, rest, lo, hi) && |rest| >= 2 && rest[0].free && rest[1].free
    requires HeaderAt(n, Merge(rest[0], rest[1]), NextAddr(rest, 1))
    requires SameOutside(m, n, rest[0].addr, rest[0].Payload())
    ensures Progress(m0, n, bs, done, [Merge(rest[0], rest[1])] + rest[2..], lo, hi)
  {
    hide Load, Tiles, Stored, OnlyHeaders, HeapSpec.Coalesce, SameOutside, HeaderAt;
    CoalesceUnfold(done, rest);
    Merged(m, n, done, rest, lo, hi);
    CoalesceHead(rest);
    var head := HeapSpec.Coalesce(rest)[0];
    assert head == HeapSpec.Coalesce(bs)[|done|];
    OneMoreHeader(m0, m, n, HeapSpec.Coalesce(bs), head, rest[0].addr);
  }

  lemma ProgressSkip(m0: seq<byte>, m: seq<byte>, bs: seq<Block>, done: seq<Block>, rest: seq<Block>, lo: nat, hi: nat)
    requires Progress(m0, m, bs, done, rest, lo, hi) && |rest| >= 2 && !(rest[0].free && rest[1].free)
    ensures Progress(m0, m, bs, done + [rest[0]], rest[1..], lo, hi)
  {
    hide Load, Tiles, Stored, OnlyHeaders, HeapSpec.Coalesce;
    CoalesceUnfold(done, rest);
  }

  /** Merges neighbouring free blocks. The walk does not advance after a merge. The header of a
      block that is absorbed is left as it was. */
  method CoalesceInPlace(ram: array<byte>, heapStart: nat, ghost bs: seq<Block>, ghost hi: nat)
    requires bs != [] && Tiles(bs, heapStart, hi) && Stored(ram[..], bs)
    requires 0 < heapStart && hi <= ram.Length <= WORD
    modifies ram
    ensures Stored(ram[..], HeapSpec.Coalesce(bs))
    ensures OnlyHeaders(old(ram[..]), ram[..], HeapSpec.Coalesce(bs))
  {
    hide Load, Word, Stored, Tiles, OnlyHeaders, SameOutside, HeapSpec.Coalesce, HeaderAt, Progress;
    var cur := heapStart;
    ghost var m0 := ram[..];
    ghost var done, rest := [], bs;
    ProgressStart(m0, bs, heapStart, hi);
    ProgressAhead(m0, m0, bs, done, rest, heapStart, hi);
    while cur != 0 && Word(ram, cur + 8) != 0
      invariant rest != [] && cur == rest[0].addr != 0 && cur + HEADER <= ram.Length
      invariant Load(ram[..], cur + 8) == 0 <==> |rest| == 1
      invariant Progress(m0, ram[..], bs, done, rest, heapStart, hi)
      decreases |rest|
    {
      ProgressAhead(m0, ram[..], bs, done, rest, heapStart, hi);
      var next := Word(ram, cur + 8);
      if Word(ram, cur + 4) != 0 && Word(ram, next + 4) != 0 {
        ghost var m := ram[..];
        Absorb(ram, cur, rest[0], rest[1], NextAddr(rest, 1));
        ProgressMerge(m0, m, ram[..], bs, done, rest, heapStart, hi);
        rest := [Merge(rest[0], rest[1])] + rest[2..];
      } else {
        ProgressSkip(m0, ram[..], bs, done, rest, heapStart, hi);
        done, rest := done + [rest[0]], rest[1..];
        cur := next;
      }
      ProgressAhead(m0, ram[..], bs, done, rest, heapStart, hi);
    }
    ProgressAhead(m0, ram[..], bs, done, rest, heapStart, hi);
  }

  lemma CoalesceUnfold(done: seq<Block>, rest: seq<Block>)
    requires rest != []
    ensures |rest| == 1 ==> HeapSpec.Coalesce(rest) == rest
    ensures |rest| >= 2 && rest[0].free && rest[1].free ==>
      HeapSpec.Coalesce(rest) == HeapSpec.Coalesce([Merge(rest[0], rest[1])] + rest[2..])
    ensures |rest| >= 2 && !(rest[0].free && rest[1].free) ==>
      done + HeapSpec.Coalesce(rest) == (done + [rest[0]]) + HeapSpec.Coalesce(rest[1..])
    ensures done + rest == (done + [rest[0]]) + rest[1..]
  {
    Shift(done, rest[0], rest[1..]);
    Shift(done, rest[0], HeapSpec.Coalesce(rest[1..]));
    assert rest == [rest[0]] + rest[1..];
  }

  lemma Shift(xs: seq<Block>, b: Block, ys: seq<Block>)
    ensures xs + ([b] + ys) == (xs + [b]) + ys
  {
  }

  lemma TilesHead(bs: seq<Block>, lo: nat, hi: nat)
    requires bs != [] && Tiles(bs, lo, hi)
    ensures bs[0].addr == lo
  {
  }

  lemma HeaderBounds(m: seq<byte>, bs: seq<Block>, i: nat, lo: nat, hi: nat)
    requires Tiles(bs, lo, hi) && Stored(m, bs) && 0 < lo && hi <= WORD && i < |bs|
    ensures lo <= bs[i].addr && bs[i].End() <= hi && NextAddr(bs, i) < WORD
    ensures HeaderAt(m, bs[i], NextAddr(bs, i))
  {
    Bounds(bs, i, lo, hi);
  }

  lemma Bounds(bs: seq<Block>, i: nat, lo: nat, hi: nat)
    requires Tiles(bs, lo, hi) && 0 < lo && hi <= WORD && i < |bs|
    ensures lo <= bs[i].addr && bs[i].End() <= hi && NextAddr(bs, i) < WORD
    ensures NextAddr(bs, i) == 0 <==> i + 1 == |bs|
  {
    TilesOrder(bs, lo, hi, i, i);
    if i + 1 < |bs| { TilesOrder(bs, lo, hi, i + 1, i + 1); }
  }

  /** The search loop of `kmalloc`: the first block that fits, or NULL. */
  method Search(ram: array<byte>, heapStart: nat, size: nat, ghost bs: seq<Block>, ghost hi: nat)
    returns (cur: nat)
    requires bs != [] && Tiles(bs, heapStart, hi) && Stored(ram[..], bs)
    requires 0 < heapStart && hi <= ram.Length <= WORD
    ensures var i := FirstFit(bs, size);
      if i < |bs| then cur == bs[i].addr != 0 else cur == 0
  {
    hide Load, Word;
    cur := heapStart;
    ghost var i := 0;
    while cur != 0
      invariant 0 <= i <= |bs| && cur == (if i < |bs| then bs[i].addr else 0)
      invariant cur != 0 || i == |bs|
      invariant forall j :: 0 <= j < i ==> !Fits(bs[j], size)
      decreases |bs| - i
    {
      assert HeaderAt(ram[..], bs[i], NextAddr(bs, i));
      Bounds(bs, i, heapStart, hi);
      assert Fits(bs[i], size) <==> Word(ram, cur + 4) != 0 && Word(ram, cur) >= size;
      if Word(ram, cur + 4) != 0 && Word(ram, cur) >= size {
        break;
      }
      cur := Word(ram, cur + 8);
      i := i + 1;
      if i < |bs| { Bounds(bs, i, heapStart, hi); }
    }
    FirstFitIs(bs, size, i);
  }

  /** After `CarveInPlace` the memory holds the list with the block carved. */
  lemma TakeStored(m: seq<byte>, n: seq<byte>, bs: seq<Block>, i: nat, size: nat, lo: nat, hi: nat)
    requires WellFormed(bs, lo, hi) && Stored(m, bs) && i < |bs| && Fits(bs[i], size) && size % 4 == 0
    requires OnlyHeaders(m, n, Carve(bs[i], size))
    requires var r := Carve(bs[i], size);
      && HeaderAt(n, r[0], if |r| == 2 then r[1].addr else NextAddr(bs, i))
      && (|r| == 2 ==> HeaderAt(n, r[1], NextAddr(bs, i)))
    ensures var cs := bs[..i] + Carve(bs[i], size) + bs[i + 1..];
      WellFormed(cs, lo, hi) && Stored(n, cs) && OnlyHeaders(m, n, cs)
  {
    var r := Carve(bs[i], size);
    CarveTiles(bs, i, size, lo, hi);
    CarveCompact(bs, i, size);
    CarveOutside(m, n, bs[i], size);
    Splice(m, n, bs, i, i + 1, r, lo, hi);
    MoreHeaders(m, n, r, bs[..i] + r + bs[i + 1..]);
  }

  lemma CarveOutside(m: seq<byte>, n: seq<byte>, b: Block, size: nat)
    requires Fits(b, size) && OnlyHeaders(m, n, Carve(b, size))
    ensures SameOutside(m, n, b.addr, b.End())
  {
    var r := Carve(b, size);
    assert forall c :: c in r ==> b.addr <= c.addr && c.Payload() <= b.End();
  }

  lemma MoreHeaders(m: seq<byte>, n: seq<byte>, bs: seq<Block>, cs: seq<Block>)
    requires OnlyHeaders(m, n, bs) && forall b :: b in bs ==> b in cs
    ensures OnlyHeaders(m, n, cs)
  {
  }

  lemma {:induction false} FirstFitIs(bs: seq<Block>, n: nat, i: nat)
    requires i <= |bs| && (i < |bs| ==> Fits(bs[i], n))
    requires forall j :: 0 <= j < i ==> !Fits(bs[j], n)
    ensures FirstFit(bs, n) == i
  {
    var _ := FirstFit(bs, n);
  }

  // ----- What clients keep -----

  /** Payload bytes and bytes outside the heap belong to no header. */
  lemma NotInHeader(bs: seq<Block>, lo: nat, hi: nat, x: int)
    requires Tiles(bs, lo, hi)
    requires !(lo <= x < hi) || exists b :: b in bs && b.Payload() <= x < b.End()
    ensures !InHeader(bs, x)
  {
    if lo <= x < hi {
      var b :| b in bs && b.Payload() <= x < b.End();
      HeapRuns.BlocksDisjoint(bs, b, lo, hi);
    }
    forall c | c in bs ensures lo <= c.addr && c.End() <= hi {
      HeapRuns.BlocksDisjoint(bs, c, lo, hi);
    }
  }

  /** No `kmalloc` changes a byte of a payload that stays live, or a byte outside the heap. */
  lemma KmallocFrame(m: seq<byte>, n: seq<byte>, bs: seq<Block>, size: nat, lo: nat, hi: nat, x: nat)
    requires WellFormed(bs, lo, hi) && size < WORD && x < |m|
    requires OnlyHeaders(m, n, HeapSpec.Kmalloc(bs, size).0)
    requires !(lo <= x < hi) || exists b :: b in Live(bs) && b.Payload() <= x < b.End()
    ensures n[x] == m[x]
  {
    hide AlignUp, Tiles, HeapSpec.Kmalloc;
    var cs := HeapSpec.Kmalloc(bs, size).0;
    var _ := KmallocStep(bs, size, lo, hi);
    if lo <= x < hi {
      var b :| b in Live(bs) && b.Payload() <= x < b.End();
      assert b in Live(cs);
    }
    NotInHeader(cs, lo, hi, x);
  }

  /** No `kfree` changes a byte of any payload, not even of the one it frees. */
  lemma KfreeFrame(m: seq<byte>, n: seq<byte>, bs: seq<Block>, lo: nat, hi: nat, x: nat)
    requires WellFormed(bs, lo, hi) && x < |m| && OnlyHeaders(m, n, bs)
    requires !(lo <= x < hi) || exists b :: b in bs && b.Payload() <= x < b.End()
    ensures n[x] == m[x]
  {
    NotInHeader(bs, lo, hi, x);
  }
}
