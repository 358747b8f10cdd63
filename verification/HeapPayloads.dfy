/** Payload memory under the allocator's feet: which bytes `kmalloc` and `kfree` cannot reach,
    and which stores cannot reach the headers. */
module HeapPayloads {
  import opened Bits
  import opened Memory
  import opened HeapSpec
  import opened HeapLaws
  import HeapRuns
  import opened HeapOwners
  import opened Heap

  ghost predicate SameBytes(m: seq<byte>, n: seq<byte>, a: nat, k: nat) {
    && |n| == |m| && a + k <= |m|
    && forall x :: a <= x < a + k ==> n[x] == m[x]
  }

  lemma PayloadBytes(m: seq<byte>, n: seq<byte>, bs: seq<Block>, a: nat, k: nat, lo: nat, hi: nat)
    requires Tiles(bs, lo, hi) && hi <= |m| && OnlyHeaders(m, n, bs) && InPayload(bs, a, k)
    ensures SameBytes(m, n, a, k)
  {
    var b :| b in bs && b.Payload() <= a && a + k <= b.End();
    HeapRuns.BlocksDisjoint(bs, b, lo, hi);
    forall x | a <= x < a + k ensures n[x] == m[x] {
      NotInHeader(bs, lo, hi, x);
    }
  }

  /** Stores inside payloads keep the heap's headers. */
  lemma PayloadStored(m: seq<byte>, n: seq<byte>, bs: seq<Block>, a: nat, k: nat, lo: nat, hi: nat)
    requires Tiles(bs, lo, hi) && Stored(m, bs) && InPayload(bs, a, k)
    requires SameOutside(m, n, a, a + k)
    ensures Stored(n, bs)
  {
    hide Load, HeaderAt;
    var b :| b in bs && b.Payload() <= a && a + k <= b.End();
    HeapRuns.BlocksDisjoint(bs, b, lo, hi);
    forall i | 0 <= i < |bs| ensures HeaderAt(n, bs[i], NextAddr(bs, i)) {
      assert bs[i] == b || b.End() <= bs[i].addr || bs[i].End() <= b.addr;
      assert HeaderAt(m, bs[i], NextAddr(bs, i));
      HeaderFrame(m, n, a, a + k, bs[i], NextAddr(bs, i));
    }
  }

  /** Payload ranges stay payload ranges when blocks are freed and merged. */
  lemma KfreePayload(heap: seq<Block>, p: nat, a: nat, n: nat, lo: nat, hi: nat)
    requires WellFormed(heap, lo, hi) && Freeable(heap, p) && InPayload(heap, a, n)
    ensures InPayload(Kfree(heap, p), a, n)
  {
    hide Tiles, Aligned, Compact, Find, Coalesce;
    if p == 0 { return; }
    var f :| f in Live(heap) && f.Payload() == p;
    var i :| 0 <= i < |heap| && heap[i] == f;
    FindIs(heap, lo, hi, i);
    ReleaseShape(heap, i, lo, hi);
    var cs := Release(heap, f.addr);
    var b :| b in heap && b.Payload() <= a && a + n <= b.End();
    var k :| 0 <= k < |heap| && heap[k] == b;
    assert cs[k].addr == b.addr && cs[k].End() == b.End();
    var c := CoalesceCovers(cs, cs[k], lo, hi);
  }

  lemma KfreeHeaders(heap: seq<Block>, p: nat, x: int)
    requires InHeader(Kfree(heap, p), x)
    ensures InHeader(heap, x)
  {
    if p != 0 { MergedHeaders(heap, p - HEADER, x); }
  }

  lemma StaleInPayload(heap: seq<Block>, a: nat, n: nat)
    requires Stale(heap, a, n)
    ensures InPayload(heap, a, n)
  {
  }

  lemma Sub(bs: seq<Block>, a: nat, n: nat, b: nat, k: nat)
    requires InPayload(bs, a, n) && a <= b && b + k <= a + n
    ensures InPayload(bs, b, k)
  {
  }

  lemma FreeNull(heap: seq<Block>, m: seq<byte>)
    ensures Kfree(heap, 0) == heap && OnlyHeaders(m, m, heap)
  {
  }
}
