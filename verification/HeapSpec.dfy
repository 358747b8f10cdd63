/** The block list of the allocator of heap.c as a value, and what every run of `kmalloc`
    and `kfree` keeps of it. */
module HeapSpec {
  import opened Bits

  const HEADER: nat := 12          // sizeof(block_header_t) on this target
  const MIN_BLOCK_DATA: nat := 16
  const HEAP_SIZE: nat := 8 * 1024 * 1024

  datatype Block = Block(addr: nat, size: nat, free: bool) {
    function Payload(): nat { addr + HEADER }
    function End(): nat { addr + HEADER + size }
  }

  // ----- Shape of the list -----

  /** The blocks follow each other without a hole from `lo` to `hi`. */
  ghost predicate Tiles(bs: seq<Block>, lo: nat, hi: nat) {
    if bs == [] then lo == hi else bs[0].addr == lo && Tiles(bs[1..], bs[0].End(), hi)
  }

  ghost predicate Aligned(bs: seq<Block>) {
    forall i :: 0 <= i < |bs| ==> bs[i].addr % 4 == 0 && bs[i].size % 4 == 0
  }

  /** No two neighbouring blocks are both free. */
  ghost predicate Compact(bs: seq<Block>) {
    forall i :: 0 <= i < |bs| - 1 ==> !(bs[i].free && bs[i + 1].free)
  }

  ghost predicate WellFormed(bs: seq<Block>, lo: nat, hi: nat) {
    bs != [] && Tiles(bs, lo, hi) && Aligned(bs) && Compact(bs)
  }

  ghost function Live(bs: seq<Block>): set<Block> {
    set b | b in bs && !b.free
  }

  lemma {:induction false} TilesBounds(bs: seq<Block>, lo: nat, hi: nat)
    requires Tiles(bs, lo, hi)
    ensures lo <= hi && (bs != [] ==> lo + HEADER <= hi)
  {
    if bs != [] { TilesBounds(bs[1..], bs[0].End(), hi); }
  }

  /** Address order: a later block starts at or after the end of an earlier one. */
  lemma {:induction false} TilesOrder(bs: seq<Block>, lo: nat, hi: nat, i: nat, j: nat)
    requires Tiles(bs, lo, hi) && i <= j < |bs|
    ensures lo <= bs[i].addr && bs[j].End() <= hi
    ensures i < j ==> bs[i].End() <= bs[j].addr
    ensures j == i + 1 ==> bs[i].End() == bs[j].addr
    ensures j == |bs| - 1 ==> bs[j].End() == hi
  {
    TilesBounds(bs[1..], bs[0].End(), hi);
    if j > 0 {
      var t := bs[1..];
      TilesOrder(t, bs[0].End(), hi, if i == 0 then 0 else i - 1, j - 1);
      if j == 1 && i == 0 { assert bs[1] == t[0]; }
    }
  }

  lemma {:induction false} TilesConcat(xs: seq<Block>, ys: seq<Block>, lo: nat, mid: nat, hi: nat)
    requires Tiles(xs, lo, mid) && Tiles(ys, mid, hi)
    ensures Tiles(xs + ys, lo, hi)
  {
    if xs == [] {
      assert xs + ys == ys;
    } else {
      TilesConcat(xs[1..], ys, xs[0].End(), mid, hi);
      assert (xs + ys)[1..] == xs[1..] + ys;
    }
  }

  lemma {:induction false} TilesSplit(bs: seq<Block>, i: nat, lo: nat, hi: nat) returns (mid: nat)
    requires Tiles(bs, lo, hi) && i <= |bs|
    ensures Tiles(bs[..i], lo, mid) && Tiles(bs[i..], mid, hi)
    ensures i < |bs| ==> mid == bs[i].addr
  {
    if i == 0 {
      mid := lo;
      assert bs[..0] == [] && bs[0..] == bs;
    } else {
      mid := TilesSplit(bs[1..], i - 1, bs[0].End(), hi);
      assert bs[..i][1..] == bs[1..][..i - 1] && bs[i..] == bs[1..][i - 1..];
    }
  }

  // ----- kmalloc -----

  predicate Fits(b: Block, n: nat) {
    b.free && b.size >= n
  }

  /** Index of the first block that fits, or the length of the list. */
  function FirstFit(bs: seq<Block>, n: nat): (i: nat)
    ensures i <= |bs| && (i < |bs| ==> Fits(bs[i], n))
    ensures forall j :: 0 <= j < i ==> !Fits(bs[j], n)
  {
    if bs == [] || Fits(bs[0], n) then 0 else 1 + FirstFit(bs[1..], n)
  }

  /** What a fitting block becomes: itself, no longer free, or a block of exactly `n`
      bytes followed by a free one when the rest is worth keeping. */
  function Carve(b: Block, n: nat): (r: seq<Block>)
    requires Fits(b, n)
  {
    if b.size - n >= HEADER + MIN_BLOCK_DATA then
      [Block(b.addr, n, false), Block(b.addr + HEADER + n, b.size - n - HEADER, true)]
    else
      [Block(b.addr, b.size, false)]
  }

  /** First-fit search and carving for a size already rounded: the new list and the
      pointer returned, 0 for NULL. */
  function Alloc(bs: seq<Block>, size: nat): (seq<Block>, nat) {
    var i := FirstFit(bs, size);
    if i == |bs| then (bs, 0)
    else (bs[..i] + Carve(bs[i], size) + bs[i + 1..], bs[i].Payload())
  }

  /** `kmalloc(n)` on the list. */
  function Kmalloc(bs: seq<Block>, n: nat): (seq<Block>, nat)
    requires n < WORD
  {
    if n == 0 then (bs, 0) else Alloc(bs, AlignUp(n, 8))
  }

  // ----- kfree -----

  /** Index of the block whose header is at `a`, or the length of the list. */
  function Find(bs: seq<Block>, a: int): (i: nat)
    ensures i <= |bs| && (i < |bs| ==> bs[i].addr == a)
    ensures forall j :: 0 <= j < i ==> bs[j].addr != a
  {
    if bs == [] || bs[0].addr == a then 0 else 1 + Find(bs[1..], a)
  }

  function Release(bs: seq<Block>, a: int): seq<Block> {
    var i := Find(bs, a);
    if i < |bs| then bs[i := bs[i].(free := true)] else bs
  }

  function Merge(b: Block, c: Block): Block {
    b.(size := b.size + HEADER + c.size)
  }

  function Coalesce(bs: seq<Block>): seq<Block>
    decreases |bs|
  {
    if |bs| < 2 then bs
    else if bs[0].free && bs[1].free then Coalesce([Merge(bs[0], bs[1])] + bs[2..])
    else [bs[0]] + Coalesce(bs[1..])
  }

  /** `kfree(p)` on the list. */
  function Kfree(bs: seq<Block>, p: nat): seq<Block> {
    if p == 0 then bs else Coalesce(Release(bs, p - HEADER))
  }

  /** What `kfree` demands: NULL, or a pointer to the payload of a live block. */
  ghost predicate Freeable(bs: seq<Block>, p: nat) {
    p == 0 || exists b :: b in Live(bs) && b.Payload() == p
  }

  // ----- heap_get_stats -----

  datatype Stats = Stats(total: nat, used: nat, free: nat, freeBlocks: nat)

  function StatsOf(bs: seq<Block>): Stats {
    if bs == [] then Stats(0, 0, 0, 0)
    else
      var s, b := StatsOf(bs[1..]), bs[0];
      if b.free then Stats(s.total + b.size, s.used, s.free + b.size, s.freeBlocks + 1)
      else Stats(s.total + b.size, s.used + b.size, s.free, s.freeBlocks)
  }
}
