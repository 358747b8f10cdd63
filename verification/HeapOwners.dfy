/** Ownership of heap memory by its users: which pointers stay live, and which freed ranges
    stay inside free memory, across `kmalloc` and `kfree`. */
module HeapOwners {
  import opened Bits
  import opened HeapSpec
  import opened HeapLaws
  import opened HeapRuns

  /** `p` is the pointer of a live block of at least `size` bytes. */
  ghost predicate OwnsBlock(heap: seq<Block>, p: nat, size: nat) {
    exists b :: b in Live(heap) && b.Payload() == p && b.size >= size
  }

  /** The bytes `[a, a + n)` lie inside the payload of one free block. */
  ghost predicate Stale(heap: seq<Block>, a: nat, n: nat) {
    exists b :: b in heap && b.free && b.Payload() <= a && a + n <= b.End()
  }

  /** The bytes `[a, a + n)` lie inside the payload of one block, live or free. */
  ghost predicate InPayload(heap: seq<Block>, a: nat, n: nat) {
    exists b :: b in heap && b.Payload() <= a && a + n <= b.End()
  }

  lemma OwnsInPayload(heap: seq<Block>, p: nat, size: nat)
    requires OwnsBlock(heap, p, size)
    ensures InPayload(heap, p, size)
  {
    var b :| b in Live(heap) && b.Payload() == p && b.size >= size;
  }

  lemma OwnedFreeable(heap: seq<Block>, p: nat, size: nat)
    requires p == 0 || OwnsBlock(heap, p, size)
    ensures Freeable(heap, p)
  {
  }

  lemma LiveUnique(heap: seq<Block>, b: Block, c: Block, lo: nat, hi: nat)
    requires Tiles(heap, lo, hi) && b in heap && c in heap && b.addr == c.addr
    ensures b == c
  {
    BlocksDisjoint(heap, b, lo, hi);
  }

  /** The bytes `[a, a + n)` and `[b, b + m)` do not meet. */
  predicate Disjoint(a: int, n: int, b: int, m: int) {
    a + n <= b || b + m <= a
  }

  /** An owned range meets neither another owned range nor a freed one. */
  lemma OwnedApart(heap: seq<Block>, p: nat, n: nat, q: nat, m: nat, lo: nat, hi: nat)
    requires Tiles(heap, lo, hi) && OwnsBlock(heap, p, n)
    requires Stale(heap, q, m) || (OwnsBlock(heap, q, m) && p != q)
    ensures Disjoint(p, n, q, m)
  {
    var b :| b in Live(heap) && b.Payload() == p && b.size >= n;
    BlocksDisjoint(heap, b, lo, hi);
    if Stale(heap, q, m) {
      var c :| c in heap && c.free && c.Payload() <= q && q + m <= c.End();
      assert c != b;
    } else {
      var c :| c in Live(heap) && c.Payload() == q && c.size >= m;
      assert c != b;
    }
  }

  // ----- kfree -----

  lemma KfreeOwns(heap: seq<Block>, p: nat, q: nat, size: nat, lo: nat, hi: nat)
    requires WellFormed(heap, lo, hi) && Freeable(heap, p) && q != p && OwnsBlock(heap, q, size)
    ensures WellFormed(Kfree(heap, p), lo, hi) && OwnsBlock(Kfree(heap, p), q, size)
  {
    if p != 0 {
      var b :| b in Live(heap) && b.Payload() == p;
      KfreeStep(heap, b, lo, hi);
      var c :| c in Live(heap) && c.Payload() == q && c.size >= size;
      assert c in Live(Kfree(heap, p));
    }
  }

  /** Every block is covered by one of the merged list, free if it was free. */
  lemma {:induction false} CoalesceCovers(bs: seq<Block>, b: Block, lo: nat, hi: nat) returns (c: Block)
    requires Tiles(bs, lo, hi) && b in bs
    ensures c in Coalesce(bs) && c.addr <= b.addr && b.End() <= c.End() && (b.free ==> c.free)
    decreases |bs|
  {
    hide Tiles, Coalesce;
    CoalesceCases(bs, lo, hi);
    if |bs| < 2 {
      return b;
    }
    if bs[0].free && bs[1].free {
      var ms := [Merge(bs[0], bs[1])] + bs[2..];
      if b == bs[0] || b == bs[1] {
        assert ms[0] in ms;
        c := CoalesceCovers(ms, ms[0], lo, hi);
      } else {
        assert b in bs[2..] by { var k :| 0 <= k < |bs| && bs[k] == b; assert bs[2..][k - 2] == b; }
        c := CoalesceCovers(ms, b, lo, hi);
      }
    } else if b == bs[0] {
      c := b;
      assert Coalesce(bs)[0] == b;
    } else {
      assert b in bs[1..] by { var k :| 0 <= k < |bs| && bs[k] == b; assert bs[1..][k - 1] == b; }
      c := CoalesceCovers(bs[1..], b, bs[0].End(), hi);
    }
  }

  lemma CoalesceCases(bs: seq<Block>, lo: nat, hi: nat)
    requires Tiles(bs, lo, hi)
    ensures |bs| < 2 ==> Coalesce(bs) == bs
    ensures |bs| >= 2 ==> Tiles(bs[1..], bs[0].End(), hi) && bs[1].addr == bs[0].End()
    ensures |bs| >= 2 && bs[0].free && bs[1].free ==>
      var ms := [Merge(bs[0], bs[1])] + bs[2..];
      Coalesce(bs) == Coalesce(ms) && Tiles(ms, lo, hi)
    ensures |bs| >= 2 && !(bs[0].free && bs[1].free) ==> Coalesce(bs) == [bs[0]] + Coalesce(bs[1..])
  {
    if |bs| >= 2 {
      assert bs[1..][0] == bs[1] && bs[1..][1..] == bs[2..];
      assert ([Merge(bs[0], bs[1])] + bs[2..])[1..] == bs[2..];
    }
  }

  /** Freed memory stays in free memory, and what is being freed joins it. */
  lemma KfreeStale(heap: seq<Block>, p: nat, a: nat, n: nat, lo: nat, hi: nat)
    requires WellFormed(heap, lo, hi) && Freeable(heap, p)
    requires Stale(heap, a, n) || (p != 0 && a == p && OwnsBlock(heap, p, n))
    ensures Stale(Kfree(heap, p), a, n)
  {
    hide Tiles, Aligned, Compact, Find, Coalesce;
    if p == 0 { return; }
    var f :| f in Live(heap) && f.Payload() == p;
    var i :| 0 <= i < |heap| && heap[i] == f;
    FindIs(heap, lo, hi, i);
    ReleaseShape(heap, i, lo, hi);
    var cs, b := Release(heap, f.addr), f.(free := true);
    assert cs[i] == b;
    if Stale(heap, a, n) {
      b :| b in heap && b.free && b.Payload() <= a && a + n <= b.End();
      var k :| 0 <= k < |heap| && heap[k] == b;
      assert cs[k] == b;
    } else {
      var g :| g in Live(heap) && g.Payload() == p && g.size >= n;
      LiveUnique(heap, f, g, lo, hi);
    }
    var c := CoalesceCovers(cs, b, lo, hi);
  }

  // ----- kmalloc -----

  lemma KmallocOwns(heap: seq<Block>, n: nat, q: nat, size: nat, lo: nat, hi: nat)
    requires WellFormed(heap, lo, hi) && n < WORD && OwnsBlock(heap, q, size)
    ensures OwnsBlock(Kmalloc(heap, n).0, q, size) && Kmalloc(heap, n).1 != q
  {
    hide Tiles, Aligned, Compact, Kmalloc, AlignUp;
    var b := KmallocStep(heap, n, lo, hi);
    var c :| c in Live(heap) && c.Payload() == q && c.size >= size;
    var (cs, p) := Kmalloc(heap, n);
    if p != 0 {
      assert b in Live(cs) && c in Live(cs);
      if p == q { LiveUnique(cs, b, c, lo, hi); }
    }
    assert q != 0;
  }

  /** A successful `kmalloc` yields an owned pointer, outside every stale range. */
  lemma KmallocFresh(heap: seq<Block>, n: nat, lo: nat, hi: nat)
    requires WellFormed(heap, lo, hi) && 0 < n <= WORD - 8
    ensures WellFormed(Kmalloc(heap, n).0, lo, hi)
    ensures var (cs, p) := Kmalloc(heap, n); p != 0 ==>
      && OwnsBlock(cs, p, n) && lo <= p && p + n <= hi && p % 4 == 0
      && forall a: nat, m: nat :: m > 0 && Stale(cs, a, m) ==> a != p
  {
    hide Kmalloc, AlignUp;
    var b := KmallocDisjoint(heap, n, lo, hi);
    var b' := KmallocStep(heap, n, lo, hi);
    var (cs, p) := Kmalloc(heap, n);
    if p != 0 {
      PayloadAligned(cs, b);
      forall a: nat, m: nat | m > 0 && Stale(cs, a, m) ensures a != p {
        var c :| c in cs && c.free && c.Payload() <= a && a + m <= c.End();
        assert c != b;
      }
    }
  }

  lemma PayloadAligned(heap: seq<Block>, b: Block)
    requires Aligned(heap) && b in heap
    ensures b.Payload() % 4 == 0
  {
  }
}
