/** Laws of the allocator's block list: what one call keeps, and what any run of calls
    makes of the initial heap. */
module HeapLaws {
  import opened Bits
  import opened HeapSpec

  // ----- kmalloc -----

  lemma LiveConcat(xs: seq<Block>, ys: seq<Block>)
    ensures Live(xs + ys) == Live(xs) + Live(ys)
  {
    forall b ensures b in Live(xs + ys) <==> b in Live(xs) + Live(ys) {
      assert b in xs + ys <==> b in xs || b in ys;
    }
  }

  lemma TilesOne(b: Block)
    ensures Tiles([b], b.addr, b.End())
  {
    assert [b][1..] == [];
  }

  lemma TilesTwo(b: Block, c: Block)
    requires c.addr == b.End()
    ensures Tiles([b, c], b.addr, c.End())
  {
    TilesOne(c);
    assert [b, c][1..] == [c];
  }

  lemma CarveShape(b: Block, n: nat)
    requires Fits(b, n) && b.addr % 4 == 0 && b.size % 4 == 0 && n % 4 == 0
    ensures Tiles(Carve(b, n), b.addr, b.End()) && Aligned(Carve(b, n))
    ensures Carve(b, n)[0].addr == b.addr && n <= Carve(b, n)[0].size <= n + 24
  {
    var r := Carve(b, n);
    if |r| == 2 { TilesTwo(r[0], r[1]); } else { TilesOne(r[0]); }
  }

  lemma CarveLive(bs: seq<Block>, i: nat, size: nat)
    requires i < |bs| && Fits(bs[i], size)
    ensures Live(bs[..i] + Carve(bs[i], size) + bs[i + 1..]) == Live(bs) + {Carve(bs[i], size)[0]}
  {
    var xs, ys, r := bs[..i], bs[i + 1..], Carve(bs[i], size);
    LiveConcat(xs, r);
    LiveConcat(xs + r, ys);
    LiveConcat(xs, [bs[i]]);
    LiveConcat(xs + [bs[i]], ys);
    assert bs == xs + [bs[i]] + ys;
    assert forall c :: c in r <==> c == r[0] || c == r[|r| - 1];
    assert Live([bs[i]]) == {} && Live(r) == {r[0]};
  }

  lemma AllocStep(bs: seq<Block>, size: nat, lo: nat, hi: nat) returns (b: Block)
    requires WellFormed(bs, lo, hi) && size % 4 == 0
    ensures var (cs, p) := Alloc(bs, size);
      && WellFormed(cs, lo, hi)
      && (p == 0 ==> cs == bs)
      && (p != 0 ==>
          && b.Payload() == p && b !in Live(bs) && Live(cs) == Live(bs) + {b}
          && size <= b.size <= size + 24)
  {
    var i := FirstFit(bs, size);
    if i == |bs| {
      return Block(0, 0, false);
    }
    b := Carve(bs[i], size)[0];
    CarveShape(bs[i], size);
    CarveTiles(bs, i, size, lo, hi);
    CarveLive(bs, i, size);
    CarveCompact(bs, i, size);
    if b in bs {
      var k :| 0 <= k < |bs| && bs[k] == b;
      SameAddress(bs, lo, hi, k, i);
    }
  }

  /** A successful `kmalloc` keeps the list well formed and adds exactly one live block, of
      the rounded size plus at most 24 bytes; a failing one changes nothing. */
  lemma KmallocStep(bs: seq<Block>, n: nat, lo: nat, hi: nat) returns (b: Block)
    requires WellFormed(bs, lo, hi) && n < WORD
    ensures var (cs, p) := Kmalloc(bs, n);
      && WellFormed(cs, lo, hi)
      && (p == 0 ==> cs == bs)
      && (p != 0 ==>
          && b.Payload() == p && b !in Live(bs) && Live(cs) == Live(bs) + {b}
          && AlignUp(n, 8) <= b.size <= AlignUp(n, 8) + 24)
  {
    hide AlignUp, Alloc, Live, Tiles, Compact, Aligned;
    AlignUp8(n);
    b := AllocStep(bs, AlignUp(n, 8), lo, hi);
  }

  lemma CarveTiles(bs: seq<Block>, i: nat, size: nat, lo: nat, hi: nat)
    requires Tiles(bs, lo, hi) && Aligned(bs) && i < |bs| && Fits(bs[i], size) && size % 4 == 0
    ensures Tiles(bs[..i] + Carve(bs[i], size) + bs[i + 1..], lo, hi)
    ensures Aligned(bs[..i] + Carve(bs[i], size) + bs[i + 1..])
  {
    var xs, ys, r := bs[..i], bs[i + 1..], Carve(bs[i], size);
    CarveShape(bs[i], size);
    var mid := TilesSplit(bs, i, lo, hi);
    assert bs[i..][1..] == ys;
    TilesConcat(xs, r, lo, mid, bs[i].End());
    TilesConcat(xs + r, ys, lo, bs[i].End(), hi);
  }

  lemma CarveCompact(bs: seq<Block>, i: nat, size: nat)
    requires Compact(bs) && i < |bs| && Fits(bs[i], size)
    ensures Compact(bs[..i] + Carve(bs[i], size) + bs[i + 1..])
  {
    var r := Carve(bs[i], size);
    var cs := bs[..i] + r + bs[i + 1..];
    forall j | 0 <= j < |cs| - 1 ensures !(cs[j].free && cs[j + 1].free) {
      if j < i - 1 {
        assert cs[j] == bs[j] && cs[j + 1] == bs[j + 1];
      } else if j >= i + |r| {
        assert cs[j] == bs[j - |r| + 1] && cs[j + 1] == bs[j + 1 - |r| + 1];
      }
    }
  }

  lemma SameAddress(bs: seq<Block>, lo: nat, hi: nat, i: nat, j: nat)
    requires Tiles(bs, lo, hi) && i < |bs| && j < |bs|
    ensures bs[i].addr == bs[j].addr ==> i == j
  {
    if i < j { TilesOrder(bs, lo, hi, i, j); }
    if j < i { TilesOrder(bs, lo, hi, j, i); }
  }

  /** What `kmalloc` does when the first block that fits is known. */
  lemma KmallocFirst(xs: seq<Block>, b: Block, ys: seq<Block>, n: nat)
    requires 0 < n < WORD && Fits(b, AlignUp(n, 8))
    requires forall i :: 0 <= i < |xs| ==> !Fits(xs[i], AlignUp(n, 8))
    ensures FirstFit(xs + [b] + ys, AlignUp(n, 8)) == |xs|
    ensures Kmalloc(xs + [b] + ys, n) == (xs + Carve(b, AlignUp(n, 8)) + ys, b.Payload())
  {
    hide AlignUp;
    var bs, size := xs + [b] + ys, AlignUp(n, 8);
    assert bs[|xs|] == b && forall i :: 0 <= i < |xs| ==> bs[i] == xs[i];
    assert FirstFit(bs, size) == |xs|;
    assert bs[..|xs|] == xs && bs[|xs| + 1..] == ys;
  }

  /** And what it does when no block fits. */
  lemma KmallocNone(bs: seq<Block>, n: nat)
    requires 0 < n <= WORD - 8 && forall i :: 0 <= i < |bs| ==> !bs[i].free || bs[i].size < n
    ensures FirstFit(bs, AlignUp(n, 8)) == |bs| && Kmalloc(bs, n) == (bs, 0)
  {
    hide AlignUp;
    AlignUp8(n);
    assert FirstFit(bs, AlignUp(n, 8)) == |bs|;
  }

  // ----- kfree -----

  /** Merging touches only free blocks and leaves no two free neighbours. */
  lemma {:induction false} CoalesceShape(bs: seq<Block>, lo: nat, hi: nat)
    requires Tiles(bs, lo, hi) && Aligned(bs)
    ensures Tiles(Coalesce(bs), lo, hi) && Aligned(Coalesce(bs)) && Compact(Coalesce(bs))
    ensures bs != [] ==> Coalesce(bs) != [] && Coalesce(bs)[0].free == bs[0].free
    ensures Live(Coalesce(bs)) == Live(bs)
    decreases |bs|
  {
    if |bs| >= 2 {
      var b, c := bs[0], bs[1];
      assert bs[1..][1..] == bs[2..] && bs[1..][0] == c;
      if b.free && c.free {
        var ms := [Merge(b, c)] + bs[2..];
        assert ms[1..] == bs[2..];
        assert Aligned(ms) by {
          assert forall i :: 1 <= i < |ms| ==> ms[i] == bs[i + 1];
        }
        CoalesceShape(ms, lo, hi);
        LiveConcat([Merge(b, c)], bs[2..]);
        LiveConcat([b, c], bs[2..]);
        assert bs == [b, c] + bs[2..];
      } else {
        var ts := Coalesce(bs[1..]);
        CoalesceShape(bs[1..], b.End(), hi);
        LiveConcat([b], ts);
        LiveConcat([b], bs[1..]);
        assert bs == [b] + bs[1..];
        assert ([b] + ts)[1..] == ts;
      }
    }
  }

  lemma FindIs(bs: seq<Block>, lo: nat, hi: nat, i: nat)
    requires Tiles(bs, lo, hi) && i < |bs|
    ensures Find(bs, bs[i].addr) == i
  {
    var k := Find(bs, bs[i].addr);
    if k < |bs| {
      SameAddress(bs, lo, hi, i, k);
    }
  }

  lemma ReleaseShape(bs: seq<Block>, i: nat, lo: nat, hi: nat)
    requires Tiles(bs, lo, hi) && Aligned(bs) && i < |bs|
    ensures var cs := bs[i := bs[i].(free := true)];
      Tiles(cs, lo, hi) && Aligned(cs) && Live(cs) == Live(bs) - {bs[i]}
  {
    var xs, ys, b := bs[..i], bs[i + 1..], bs[i].(free := true);
    var cs := bs[i := b];
    var mid := TilesSplit(bs, i, lo, hi);
    assert cs == xs + [b] + ys && bs[i..][1..] == ys;
    TilesConcat(xs, [b], lo, mid, b.End());
    TilesConcat(xs + [b], ys, lo, b.End(), hi);
    forall c ensures c in Live(cs) <==> c in Live(bs) - {bs[i]} {
      if c in Live(bs) && c != bs[i] {
        var k :| 0 <= k < |bs| && bs[k] == c;
        assert cs[k] == c;
      }
      if c in Live(cs) {
        var k :| 0 <= k < |cs| && cs[k] == c;
        assert k != i && bs[k] == c;
        SameAddress(bs, lo, hi, i, k);
      }
    }
  }

  /** `kfree` of a live pointer keeps the list well formed and removes exactly that block
      from the live ones. */
  lemma KfreeStep(bs: seq<Block>, b: Block, lo: nat, hi: nat)
    requires WellFormed(bs, lo, hi) && b in Live(bs)
    ensures WellFormed(Kfree(bs, b.Payload()), lo, hi)
    ensures Live(Kfree(bs, b.Payload())) == Live(bs) - {b}
  {
    var i :| 0 <= i < |bs| && bs[i] == b;
    FindIs(bs, lo, hi, i);
    ReleaseShape(bs, i, lo, hi);
    CoalesceShape(Release(bs, b.addr), lo, hi);
  }

  // ----- History independence -----

  lemma LiveTail(bs: seq<Block>, lo: nat, hi: nat)
    requires Tiles(bs, lo, hi) && bs != []
    ensures Live(bs[1..]) == Live(bs) - {bs[0]}
    ensures forall b :: b in bs[1..] ==> bs[0].End() <= b.addr
  {
    forall b | b in bs[1..] ensures bs[0].End() <= b.addr {
      var k :| 0 <= k < |bs[1..]| && bs[1..][k] == b;
      TilesOrder(bs, lo, hi, 0, k + 1);
    }
    LiveConcat([bs[0]], bs[1..]);
    assert bs == [bs[0]] + bs[1..];
  }

  /** A free first block cannot be shorter than the first block of another list with the
      same live blocks: what follows it is live, and would lie inside the other's block. */
  lemma FreeHeadNotShorter(xs: seq<Block>, ys: seq<Block>, lo: nat, hi: nat)
    requires Tiles(xs, lo, hi) && Tiles(ys, lo, hi) && xs != [] && ys != []
    requires Compact(xs) && Live(xs) == Live(ys) && xs[0].free && ys[0].free
    ensures xs[0].size >= ys[0].size
  {
    if xs[0].size < ys[0].size {
      TilesBounds(ys[1..], ys[0].End(), hi);
      assert xs[1..] != [];
      assert xs[1] == xs[1..][0] && xs[1].addr == xs[0].End();
      assert xs[1] in Live(xs);
      LiveTail(ys, lo, hi);
    }
  }

  /** The whole metadata list is determined by the set of live blocks. */
  lemma {:induction false} Determined(xs: seq<Block>, ys: seq<Block>, lo: nat, hi: nat)
    requires Tiles(xs, lo, hi) && Tiles(ys, lo, hi) && Compact(xs) && Compact(ys)
    requires Live(xs) == Live(ys)
    ensures xs == ys
  {
    if xs == [] || ys == [] {
      TilesBounds(xs, lo, hi);
      TilesBounds(ys, lo, hi);
    } else {
      HeadsAgree(xs, ys, lo, hi);
      LiveTail(xs, lo, hi);
      LiveTail(ys, lo, hi);
      assert Compact(xs[1..]) by { assert forall i :: 0 <= i < |xs[1..]| ==> xs[1..][i] == xs[i + 1]; }
      assert Compact(ys[1..]) by { assert forall i :: 0 <= i < |ys[1..]| ==> ys[1..][i] == ys[i + 1]; }
      Determined(xs[1..], ys[1..], xs[0].End(), hi);
      assert xs == [xs[0]] + xs[1..] && ys == [ys[0]] + ys[1..];
    }
  }

  lemma HeadsAgree(xs: seq<Block>, ys: seq<Block>, lo: nat, hi: nat)
    requires Tiles(xs, lo, hi) && Tiles(ys, lo, hi) && Compact(xs) && Compact(ys)
    requires Live(xs) == Live(ys) && xs != [] && ys != []
    ensures xs[0] == ys[0]
  {
    LiveTail(xs, lo, hi);
    LiveTail(ys, lo, hi);
    if xs[0].free && ys[0].free {
      FreeHeadNotShorter(xs, ys, lo, hi);
      FreeHeadNotShorter(ys, xs, lo, hi);
    } else if !xs[0].free {
      assert xs[0] in Live(xs);
      assert xs[0] in ys;
    } else {
      assert ys[0] in Live(ys);
      assert ys[0] in xs;
    }
  }

  lemma TilesPrepend(b: Block, rest: seq<Block>, hi: nat)
    requires Tiles(rest, b.End(), hi)
    ensures Tiles([b] + rest, b.addr, hi)
  {
    assert ([b] + rest)[1..] == rest;
  }

  /** Freeing a block between live ones only marks it. */
  lemma FreeNoMerge(bs: seq<Block>, i: nat, lo: nat, hi: nat)
    requires WellFormed(bs, lo, hi) && i < |bs| && !bs[i].free
    requires (i > 0 ==> !bs[i - 1].free) && (i + 1 < |bs| ==> !bs[i + 1].free)
    ensures Kfree(bs, bs[i].Payload()) == bs[i := bs[i].(free := true)]
  {
    hide Kfree;
    assert bs[i] in Live(bs);
    KfreeStep(bs, bs[i], lo, hi);
    ReleaseShape(bs, i, lo, hi);
    Determined(Kfree(bs, bs[i].Payload()), bs[i := bs[i].(free := true)], lo, hi);
  }

  // ----- Conservation -----

  /** The figures of `heap_get_stats` account for every byte of the heap. */
  lemma {:induction false} Conservation(bs: seq<Block>, lo: nat, hi: nat)
    requires Tiles(bs, lo, hi)
    ensures var s := StatsOf(bs);
      s.total == s.used + s.free && s.total + HEADER * |bs| == hi - lo && s.freeBlocks <= |bs|
  {
    if bs != [] { Conservation(bs[1..], bs[0].End(), hi); }
  }
}
