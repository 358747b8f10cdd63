/** What any sequence of mapping calls yields. */
module PagingLaws {
  import opened Collections
  import opened Bits
  import opened PagingSpec

  // ----- Invariant and monotonicity -----

  lemma MapPageInv(s: Map, p: nat)
    requires MapInv(s) && p < LAST_PAGE && TableFor(s, p)
    ensures MapInv(MapPage(s, p)) && s.slots <= MapPage(s, p).slots && MapPage(s, p).pages == s.pages + {p}
  {
    var r := MapPage(s, p);
    forall q | q in r.pages ensures q < LAST_PAGE && q / ENTRIES in r.slots {
      if q != p { assert q / ENTRIES in s.slots; }
    }
    if p / ENTRIES !in s.slots {
      assert forall t :: 0 <= t < NUM_PAGE_TABLES ==> s.slots[t] == t && s.slots[t] in s.slots;
    }
  }

  /** Any call keeps the invariant, keeps every mapped page and every table assignment, and maps
      pages of its own range only. */
  lemma {:induction false} MapRangeInv(s: Map, p: nat, end: nat)
    requires MapInv(s) && end <= LAST_PAGE
    ensures var r := MapRange(s, p, end);
      && MapInv(r) && s.slots <= r.slots && s.pages <= r.pages
      && forall q :: q in r.pages ==> q in s.pages || p <= q < end
    decreases end - p
  {
    hide MapInv, MapPage, TableFor;
    if p < end && TableFor(s, p) {
      MapPageInv(s, p);
      MapRangeInv(MapPage(s, p), p + 1, end);
    }
  }

  // ----- Coverage -----

  /** The directory indices touched by the pages `a..b` that have no table yet. */
  ghost function Absent(slots: seq<nat>, a: nat, b: nat): set<nat> {
    set q | a <= q < b && q / ENTRIES !in slots :: q / ENTRIES
  }

  /** The first page of `p..end` that finds no table, or `end`. */
  function Stop(s: Map, p: nat, end: nat): (q: nat)
    ensures p <= end ==> p <= q <= end
    decreases end - p
  {
    if p >= end then end else if !TableFor(s, p) then p else Stop(MapPage(s, p), p + 1, end)
  }

  /** The pages from `a` up to `b`. */
  ghost function Pages(a: nat, b: nat): (r: set<nat>)
    ensures forall q :: q in r <==> a <= q < b
    decreases b - a
  {
    if a >= b then {} else {a} + Pages(a + 1, b)
  }

  /** The pages mapped after a call are those before and exactly the prefix of the range up to
      the first page that needs a table when none is left. */
  lemma {:induction false} MapsPrefix(s: Map, p: nat, end: nat)
    requires p <= end
    ensures MapRange(s, p, end).pages == s.pages + Pages(p, Stop(s, p, end))
    decreases end - p
  {
    if p < end && TableFor(s, p) {
      MapsPrefix(MapPage(s, p), p + 1, end);
    }
  }

  lemma AbsentStep(s: Map, p: nat, b: nat)
    requires p < b
    ensures Absent(s.slots, p, b) ==
      Absent(MapPage(s, p).slots, p + 1, b) + (if p / ENTRIES in s.slots then {} else {p / ENTRIES})
    ensures p / ENTRIES !in Absent(MapPage(s, p).slots, p + 1, b)
  {
    var d, slots' := p / ENTRIES, MapPage(s, p).slots;
    forall x ensures x in Absent(s.slots, p, b) <==>
      x in Absent(slots', p + 1, b) || (d !in s.slots && x == d)
    {
      if x in Absent(s.slots, p, b) {
        var q :| p <= q < b && q / ENTRIES !in s.slots && q / ENTRIES == x;
        if x != d { assert p + 1 <= q < b && q / ENTRIES !in slots'; }
      }
    }
  }

  /** Where the prefix ends: with `k` tables left, the call stops at the first page that has no
      table and before which `k` new directory indices were already met. */
  lemma {:induction false} StopMeaning(s: Map, p: nat, end: nat)
    requires p <= end && |s.slots| <= MAX_TABLES
    ensures var q := Stop(s, p, end);
      && |Absent(s.slots, p, q)| <= 8 - |s.slots|
      && (q < end ==> |Absent(s.slots, p, q + 1)| > 8 - |s.slots|)
    decreases end - p
  {
    hide Absent, MapPage;
    var q := Stop(s, p, end);
    if p >= end || !TableFor(s, p) {
      NoneYet(s, p);
    } else {
      PageTable(s, p);
      StopMeaning(MapPage(s, p), p + 1, end);
      if p < q { AbsentCount(s, p, q); } else { NoneYet(s, p); }
      AbsentCount(s, p, q + 1);
    }
  }

  lemma PageTable(s: Map, p: nat)
    requires TableFor(s, p) && |s.slots| <= MAX_TABLES
    ensures |MapPage(s, p).slots| <= MAX_TABLES
  {
  }

  lemma NoneYet(s: Map, p: nat)
    ensures Absent(s.slots, p, p) == {}
    ensures p / ENTRIES !in s.slots ==> |Absent(s.slots, p, p + 1)| > 0
  {
    if p / ENTRIES !in s.slots {
      assert p / ENTRIES in Absent(s.slots, p, p + 1);
    }
  }

  lemma AbsentCount(s: Map, p: nat, b: nat)
    requires p < b
    ensures |Absent(s.slots, p, b)| + |s.slots| ==
      |Absent(MapPage(s, p).slots, p + 1, b)| + |MapPage(s, p).slots|
  {
    AbsentStep(s, p, b);
    var d := p / ENTRIES;
    if d !in s.slots {
      assert |Absent(MapPage(s, p).slots, p + 1, b) + {d}| == |Absent(MapPage(s, p).slots, p + 1, b)| + 1;
    }
  }

  /** Hence the whole range is mapped exactly when it touches no more directory indices without
      a table than there are tables left. */
  lemma FullyMapped(s: Map, p: nat, end: nat)
    requires MapInv(s) && p <= end
    ensures Pages(p, end) <= MapRange(s, p, end).pages <==> |Absent(s.slots, p, end)| <= 8 - |s.slots|
  {
    hide Absent, MapRange, MapInv, Stop;
    CountOk(s);
    MapsPrefix(s, p, end);
    StopMeaning(s, p, end);
    var q := Stop(s, p, end);
    if q < end {
      AbsentGrows(s.slots, p, q + 1, end);
      StopNotMapped(s, p, end);
      assert q in Pages(p, end);
    }
  }

  lemma AbsentGrows(slots: seq<nat>, p: nat, b: nat, c: nat)
    requires b <= c
    ensures |Absent(slots, p, b)| <= |Absent(slots, p, c)|
  {
    SubsetSize(Absent(slots, p, b), Absent(slots, p, c));
  }

  /** The page where the call stopped was not mapped before either: it has no table. */
  lemma {:induction false} StopNotMapped(s: Map, p: nat, end: nat)
    requires MapInv(s) && p <= end && Stop(s, p, end) < end
    ensures Stop(s, p, end) !in s.pages && Stop(s, p, end) / ENTRIES !in s.slots
    decreases end - p
  {
    var q := Stop(s, p, end);
    StopHasNoTable(s, p, end);
  }

  lemma {:induction false} StopHasNoTable(s: Map, p: nat, end: nat)
    requires p <= end && Stop(s, p, end) < end
    ensures Stop(s, p, end) / ENTRIES !in s.slots
    decreases end - p
  {
    if TableFor(s, p) { StopHasNoTable(MapPage(s, p), p + 1, end); }
  }

  // ----- Idempotence and commutation -----

  /** Mapping pages that are all mapped already changes nothing. */
  lemma {:induction false} MapAgain(s: Map, p: nat, end: nat)
    requires forall q :: p <= q < end ==> q in s.pages && q / ENTRIES in s.slots
    ensures MapRange(s, p, end) == s
    decreases end - p
  {
    if p < end {
      assert MapPage(s, p) == s by { assert s.pages + {p} == s.pages; }
      MapAgain(s, p + 1, end);
    }
  }

  /** A range may be mapped in two parts, as long as the first part is completed. */
  lemma {:induction false} MapInTwo(s: Map, p: nat, mid: nat, end: nat)
    requires p <= mid <= end && Stop(s, p, mid) == mid
    ensures MapRange(s, p, end) == MapRange(MapRange(s, p, mid), mid, end)
    decreases mid - p
  {
    if p < mid { MapInTwo(MapPage(s, p), p + 1, mid, end); }
  }

  lemma {:induction false} StopPrefix(s: Map, p: nat, end: nat)
    requires p <= end
    ensures var q := Stop(s, p, end);
      && Stop(s, p, q) == q && MapRange(s, p, q) == MapRange(s, p, end)
      && (q < end ==> !TableFor(MapRange(s, p, end), q))
    decreases end - p
  {
    if p < end && TableFor(s, p) { StopPrefix(MapPage(s, p), p + 1, end); }
  }

  /** Mapping a region twice is mapping it once, even when the tables ran out. */
  lemma Idempotent(s: Map, p: nat, end: nat)
    requires MapInv(s) && end <= LAST_PAGE
    ensures var r := MapRange(s, p, end); MapRange(r, p, end) == r
  {
    if p < end {
      var r, q := MapRange(s, p, end), Stop(s, p, end);
      MapRangeInv(s, p, end);
      MapsPrefix(s, p, end);
      StopPrefix(s, p, end);
      forall x | p <= x < q ensures x in r.pages && x / ENTRIES in r.slots {
        assert x in Pages(p, q);
      }
      MapAgain(r, p, q);
      MapsPrefix(r, p, q);
      AgainStops(r, p, q);
      MapInTwo(r, p, q, end);
    }
  }

  lemma {:induction false} AgainStops(s: Map, p: nat, end: nat)
    requires p <= end && forall q :: p <= q < end ==> q in s.pages && q / ENTRIES in s.slots
    ensures Stop(s, p, end) == end
    decreases end - p
  {
    if p < end {
      assert MapPage(s, p) == s by { assert s.pages + {p} == s.pages; }
      AgainStops(s, p + 1, end);
    }
  }

  ghost function SlotSet(s: Map): set<nat> {
    set d | d in s.slots
  }

  /** The table assignments after a completed call: those before and the ones it lacked. */
  lemma {:induction false} MapsSlots(s: Map, p: nat, end: nat)
    requires p <= end
    ensures SlotSet(MapRange(s, p, end)) == SlotSet(s) + Absent(s.slots, p, Stop(s, p, end))
    decreases end - p
  {
    var q := Stop(s, p, end);
    if p < end && TableFor(s, p) {
      MapsSlots(MapPage(s, p), p + 1, end);
      AbsentStep(s, p, q);
      assert SlotSet(MapPage(s, p)) == SlotSet(s) + {p / ENTRIES};
    } else {
      assert Absent(s.slots, p, q) == {};
    }
  }

  /** Two regions commute when both orders complete both of them: the same pages are mapped and
      the same directory indices have tables. */
  lemma Commute(s: Map, a: nat, b: nat, c: nat, d: nat)
    requires MapInv(s) && a <= b <= LAST_PAGE && c <= d <= LAST_PAGE
    requires |Absent(s.slots, a, b) + Absent(s.slots, c, d)| <= MAX_TABLES - |s.slots|
    ensures var r, r' := MapRange(MapRange(s, a, b), c, d), MapRange(MapRange(s, c, d), a, b);
      && r.pages == r'.pages == s.pages + Pages(a, b) + Pages(c, d)
      && SlotSet(r) == SlotSet(r') && |r.slots| == |r'.slots|
  {
    BothMapped(s, a, b, c, d);
    assert Absent(s.slots, c, d) + Absent(s.slots, a, b) == Absent(s.slots, a, b) + Absent(s.slots, c, d);
    BothMapped(s, c, d, a, b);
  }

  lemma BothMapped(s: Map, a: nat, b: nat, c: nat, d: nat)
    requires MapInv(s) && a <= b <= LAST_PAGE && c <= d <= LAST_PAGE
    requires |Absent(s.slots, a, b) + Absent(s.slots, c, d)| <= MAX_TABLES - |s.slots|
    ensures var r := MapRange(MapRange(s, a, b), c, d);
      && r.pages == s.pages + Pages(a, b) + Pages(c, d)
      && SlotSet(r) == SlotSet(s) + Absent(s.slots, a, b) + Absent(s.slots, c, d)
      && |r.slots| == |SlotSet(r)|
  {
    hide Absent, MapRange, SlotSet, Pages, MapInv;
    var m, x, y := MapRange(s, a, b), Absent(s.slots, a, b), Absent(s.slots, c, d);
    MapRangeInv(s, a, b);
    MapRangeInv(m, c, d);
    Completes(s, a, b, x + y);
    AbsentAfter(s, m, a, b, c, d);
    SlotCount(s);
    SlotCount(m);
    AbsentFresh(s, a, b);
    DisjointSize(SlotSet(s), x);
    DisjointSize(x, y - x);
    assert x + (y - x) == x + y;
    Completes(m, c, d, y - x);
    SlotCount(MapRange(m, c, d));
  }

  lemma AbsentFresh(s: Map, a: nat, b: nat)
    ensures SlotSet(s) !! Absent(s.slots, a, b)
  {
  }

  lemma DisjointSize(x: set<nat>, y: set<nat>)
    requires x !! y
    ensures |x + y| == |x| + |y|
  {
  }

  lemma AbsentAfter(s: Map, m: Map, a: nat, b: nat, c: nat, d: nat)
    requires SlotSet(m) == SlotSet(s) + Absent(s.slots, a, b)
    ensures Absent(m.slots, c, d) == Absent(s.slots, c, d) - Absent(s.slots, a, b)
  {
    forall x ensures x in m.slots <==> x in s.slots || x in Absent(s.slots, a, b) {
      assert x in m.slots <==> x in SlotSet(m);
      assert x in s.slots <==> x in SlotSet(s);
    }
  }

  lemma CountOk(s: Map)
    requires MapInv(s)
    ensures |s.slots| <= MAX_TABLES
  {
  }

  /** A range whose missing tables are within what is left is mapped to its end. */
  lemma Completes(s: Map, p: nat, end: nat, need: set<nat>)
    requires MapInv(s) && p <= end && Absent(s.slots, p, end) <= need && |need| <= MAX_TABLES - |s.slots|
    ensures Stop(s, p, end) == end
    ensures MapRange(s, p, end).pages == s.pages + Pages(p, end)
    ensures SlotSet(MapRange(s, p, end)) == SlotSet(s) + Absent(s.slots, p, end)
  {
    hide Absent, MapRange, SlotSet, Stop, Pages;
    CountOk(s);
    SubsetSize(Absent(s.slots, p, end), need);
    StopMeaning(s, p, end);
    var q := Stop(s, p, end);
    if q < end { AbsentGrows(s.slots, p, q + 1, end); }
    MapsPrefix(s, p, end);
    MapsSlots(s, p, end);
  }

  lemma SlotCount(s: Map)
    requires MapInv(s)
    ensures |SlotSet(s)| == |s.slots|
  {
    DistinctSize(s.slots);
    assert SlotSet(s) == Elements(s.slots);
  }

  // ----- The 32-bit region -----

  /** The page range of a call: the pages that `[addr, addr + size)` meets, as long as the sum
      rounded up does not wrap. When it wraps although the region ends by 4 GB, nothing at all
      is mapped. */
  lemma RegionPages(addr: nat, size: nat)
    requires addr < WORD && size < WORD && addr + size <= WORD
    ensures addr + size + 0xFFF < WORD ==>
      forall q: nat :: FirstPage(addr) <= q < EndPage(addr, size) <==>
        q * PAGE <= addr + size - 1 && addr < (q + 1) * PAGE && (size > 0 || addr % PAGE > 0)
    ensures addr + size + 0xFFF >= WORD ==> EndPage(addr, size) == 0
  {
    if addr + size + 0xFFF < WORD {
      assert Add32(Add32(addr, size), PAGE - 1) == addr + size + 0xFFF;
      forall q: nat ensures FirstPage(addr) <= q < EndPage(addr, size) <==>
        q * PAGE <= addr + size - 1 && addr < (q + 1) * PAGE && (size > 0 || addr % PAGE > 0)
      {
        PageBounds(addr, size, q);
      }
    } else {
      EndWraps(addr, size);
    }
  }

  lemma PageBounds(addr: nat, size: nat, q: nat)
    ensures addr / PAGE <= q < (addr + size + 0xFFF) / PAGE <==>
      q * PAGE <= addr + size - 1 && addr < (q + 1) * PAGE && (size > 0 || addr % PAGE > 0)
  {
    var a, b := addr / PAGE, (addr + size + 0xFFF) / PAGE;
    assert a * PAGE <= addr < (a + 1) * PAGE;
    assert b * PAGE <= addr + size + 0xFFF < (b + 1) * PAGE;
  }

  lemma EndWraps(addr: nat, size: nat)
    requires addr < WORD && size < WORD && addr + size <= WORD <= addr + size + 0xFFF
    ensures EndPage(addr, size) == 0
  {
    var x := addr + size;
    if x == WORD {
      assert Add32(addr, size) == 0;
    } else {
      assert Add32(addr, size) == x;
      assert (x + 0xFFF) % WORD == x + 0xFFF - WORD;
    }
  }

  lemma {:induction false} RangeEmpty(s: Map, p: nat, end: nat)
    requires end <= p
    ensures MapRange(s, p, end) == s
  {
  }

  /** A call maps its whole region exactly when the rounded end does not wrap and the tables
      suffice. The region of a call whose end wraps reaches the page that is never mapped. */
  lemma RegionMapped(s: Map, addr: nat, size: nat)
    requires MapInv(s) && addr < WORD && 0 < size < WORD && addr + size <= WORD
    ensures var region := Pages(addr / PAGE, (addr + size - 1) / PAGE + 1);
      region <= MapRegion(s, addr, size).pages <==>
        && addr + size + 0xFFF < WORD
        && |Absent(s.slots, FirstPage(addr), EndPage(addr, size))| <= 8 - |s.slots|
  {
    if addr + size + 0xFFF < WORD {
      assert Add32(Add32(addr, size), PAGE - 1) == addr + size + 0xFFF;
      assert (addr + size + 0xFFF) / PAGE == (addr + size - 1) / PAGE + 1;
      FullyMapped(s, FirstPage(addr), EndPage(addr, size));
    } else {
      EndWraps(addr, size);
      RangeEmpty(s, FirstPage(addr), 0);
      assert addr / PAGE <= LAST_PAGE == (addr + size - 1) / PAGE;
      assert LAST_PAGE in Pages(addr / PAGE, LAST_PAGE + 1);
    }
  }

  // ----- Any sequence of calls -----

  datatype Call = Call(addr: nat, size: nat)

  function MapAll(s: Map, calls: seq<Call>): Map
    decreases |calls|
  {
    if calls == [] then s else MapAll(MapRegion(s, calls[0].addr, calls[0].size), calls[1..])
  }

  lemma EndInSpace(addr: nat, size: nat)
    ensures EndPage(addr, size) <= LAST_PAGE
  {
    var x := Add32(Add32(addr, size), PAGE - 1);
    assert x < WORD == ALL_PAGES * PAGE;
  }

  /** Whatever is called with whatever 32-bit arguments: nothing present becomes absent, no
      directory index changes its table, and the first 16 MB stay mapped. */
  lemma {:induction false} MapAllInv(s: Map, calls: seq<Call>)
    requires MapInv(s)
    ensures var r := MapAll(s, calls);
      && MapInv(r) && s.slots <= r.slots && s.pages <= r.pages
      && forall p: nat :: p < NUM_PAGE_TABLES * ENTRIES ==> p in r.pages
    decreases |calls|
  {
    hide MapRange;
    if calls != [] {
      var c := calls[0];
      EndInSpace(c.addr, c.size);
      MapRangeInv(s, FirstPage(c.addr), EndPage(c.addr, c.size));
      MapAllInv(MapRegion(s, c.addr, c.size), calls[1..]);
    }
  }

  /** Whatever is called, the last page of the address space is never mapped. */
  lemma LastPageNeverMapped(s: Map, calls: seq<Call>)
    requires MapInv(s)
    ensures LAST_PAGE !in MapAll(s, calls).pages
  {
    hide MapAll;
    MapAllInv(s, calls);
  }
}
