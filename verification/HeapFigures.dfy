/** What the figures of `heap_get_stats` mean, without the walk that adds them up. */
module HeapFigures {
  import opened Bits
  import opened HeapSpec
  import opened HeapLaws
  import HeapRuns
  import opened HeapOwners

  /** The sum of the sizes of these blocks. */
  ghost function Sizes(s: set<Block>): nat
    decreases |s|
  {
    if s == {} then 0 else var b :| b in s; b.size + Sizes(s - {b})
  }

  /** It does not matter in which order they are added. */
  lemma {:induction false} SizesAdd(s: set<Block>, b: Block)
    requires b in s
    ensures Sizes(s) == b.size + Sizes(s - {b})
    decreases |s|
  {
    var c :| c in s && Sizes(s) == c.size + Sizes(s - {c});
    if c != b {
      SizesAdd(s - {c}, b);
      SizesAdd(s - {b}, c);
      assert s - {c} - {b} == s - {b} - {c};
    }
  }

  ghost function Unused(bs: seq<Block>): set<Block> {
    set b | b in bs && b.free
  }

  /** The places of the free blocks. */
  ghost function FreePlaces(bs: seq<Block>): set<nat> {
    set i: nat | i < |bs| && bs[i].free
  }

  lemma UnusedTail(bs: seq<Block>, lo: nat, hi: nat)
    requires Tiles(bs, lo, hi) && bs != []
    ensures Unused(bs[1..]) == Unused(bs) - {bs[0]} && bs[0] !in bs[1..]
  {
    LiveTail(bs, lo, hi);
    assert bs == [bs[0]] + bs[1..];
  }

  lemma FreePlacesTail(bs: seq<Block>)
    requires bs != []
    ensures |FreePlaces(bs)| == |FreePlaces(bs[1..])| + (if bs[0].free then 1 else 0)
  {
    var head, tail := if bs[0].free then {0} else {}, FreePlaces(bs[1..]);
    var moved := set i: nat | i in tail :: i + 1;
    MovedSize(tail, moved);
    forall i: nat ensures i in FreePlaces(bs) <==> i in head + moved {
      if i > 0 && i < |bs| {
        assert bs[i] == bs[1..][i - 1];
        assert i - 1 in tail ==> (i - 1) + 1 in moved;
      }
    }
    assert FreePlaces(bs) == head + moved;
    assert head !! moved;
  }

  lemma {:induction false} MovedSize(s: set<nat>, moved: set<nat>)
    requires moved == set i: nat | i in s :: i + 1
    ensures |moved| == |s|
    decreases |s|
  {
    if s != {} {
      var x :| x in s;
      var rest := set i: nat | i in s - {x} :: i + 1;
      forall y ensures y in moved <==> y in rest + {x + 1} {
        if y in moved {
          var i :| i in s && y == i + 1;
          assert i != x ==> i in s - {x};
        }
      }
      assert moved == rest + {x + 1} && x + 1 !in rest;
      MovedSize(s - {x}, rest);
    }
  }

  /** `used` is the sum of the sizes of the live blocks, `free` that of the others, `free_blocks`
      the number of places that are free, `total` all there is. */
  lemma {:induction false} StatsMeaning(bs: seq<Block>, lo: nat, hi: nat)
    requires Tiles(bs, lo, hi)
    ensures StatsOf(bs).used == Sizes(Live(bs))
    ensures StatsOf(bs).free == Sizes(Unused(bs))
    ensures StatsOf(bs).freeBlocks == |FreePlaces(bs)|
    ensures StatsOf(bs).total + 12 * |bs| == hi - lo
  {
    Conservation(bs, lo, hi);
    if bs == [] {
      assert Live(bs) == {} && Unused(bs) == {} && FreePlaces(bs) == {};
    } else {
      var b := bs[0];
      StatsMeaning(bs[1..], b.End(), hi);
      LiveTail(bs, lo, hi);
      UnusedTail(bs, lo, hi);
      FreePlacesTail(bs);
      if b.free {
        SizesAdd(Unused(bs), b);
        assert Live(bs) - {b} == Live(bs);
      } else {
        SizesAdd(Live(bs), b);
        assert Unused(bs) - {b} == Unused(bs);
      }
    }
  }

  /** An empty heap: 8 MB less one header of 12 bytes, all of it free. */
  lemma InitialFigures(lo: nat)
    ensures StatsOf(HeapRuns.Initial(lo)) == Stats(8388596, 0, 8388596, 1)
  {
    assert HeapRuns.Initial(lo)[1..] == [];
  }

  /** `kmalloc` moves `used` by the size of the block it grants, and by nothing when it fails. */
  lemma KmallocFigures(bs: seq<Block>, n: nat, lo: nat, hi: nat) returns (b: Block)
    requires WellFormed(bs, lo, hi) && n < WORD
    ensures var (cs, p) := Kmalloc(bs, n);
      && (p == 0 ==> StatsOf(cs) == StatsOf(bs))
      && (p != 0 ==> b.Payload() == p && Live(cs) == Live(bs) + {b} && StatsOf(cs).used == StatsOf(bs).used + b.size)
  {
    hide Kmalloc, AlignUp, Tiles, StatsOf;
    b := KmallocStep(bs, n, lo, hi);
    var (cs, p) := Kmalloc(bs, n);
    StatsMeaning(bs, lo, hi);
    StatsMeaning(cs, lo, hi);
    if p != 0 {
      SizesAdd(Live(cs), b);
      assert Live(cs) - {b} == Live(bs);
    }
  }

  /** And `kfree` by the size of the block it frees. */
  lemma KfreeFigures(bs: seq<Block>, b: Block, lo: nat, hi: nat)
    requires WellFormed(bs, lo, hi) && b in Live(bs)
    ensures StatsOf(Kfree(bs, b.addr + 12)).used == StatsOf(bs).used - b.size
  {
    hide Kfree, Tiles, StatsOf;
    KfreeStep(bs, b, lo, hi);
    StatsMeaning(bs, lo, hi);
    StatsMeaning(Kfree(bs, b.Payload()), lo, hi);
    SizesAdd(Live(bs), b);
  }
}
