/** The page tables of paging.c in physical memory, the walk of the processor over them
    (32-bit paging, section 4.3 of the Intel SDM, Volume 3A), and the code that fills them. */
module Paging {
  import opened Collections
  import opened Bits
  import opened Memory
  import opened PagingSpec
  import opened PagingLaws

  datatype Option<T> = None | Some(value: T)

  /** Addresses of `page_directory`, `page_tables` and `extra_page_tables`. */
  datatype Layout = Layout(dir: nat, boot: nat, extra: nat) {
    function Table(t: nat): nat {
      if t < NUM_PAGE_TABLES then boot + PAGE * t else extra + PAGE * (t - NUM_PAGE_TABLES)
    }
  }

  /** Aligned, apart, and inside memory. */
  ghost predicate LayoutOk(l: Layout, length: nat) {
    && l.dir % PAGE == 0 && l.boot % PAGE == 0 && l.extra % PAGE == 0
    && l.dir + PAGE <= length && l.boot + 4 * PAGE <= length && l.extra + 4 * PAGE <= length && length <= WORD
    && (l.dir + PAGE <= l.boot || l.boot + 4 * PAGE <= l.dir)
    && (l.dir + PAGE <= l.extra || l.extra + 4 * PAGE <= l.dir)
    && (l.boot + 4 * PAGE <= l.extra || l.extra + 4 * PAGE <= l.boot)
  }

  const FLAGS: nat := 7    // present, writable, user

  function PageEntry(pages: set<nat>, p: nat): nat {
    if p in pages then p * PAGE + FLAGS else 0
  }

  /** Entry `j` of the directory or table at address `a`. */
  function Entry(m: seq<byte>, a: nat, j: nat): (w: nat)
    requires a + PAGE <= |m| && j < ENTRIES
    ensures w < WORD
  {
    Load(m, a + 4 * j)
  }

  ghost predicate DirectoryStored(m: seq<byte>, l: Layout, slots: seq<nat>)
    requires LayoutOk(l, |m|)
  {
    && (forall t :: 0 <= t < |slots| ==> slots[t] < ENTRIES && Entry(m, l.dir, slots[t]) == l.Table(t) + FLAGS)
    && forall d: nat :: d < ENTRIES && d !in slots ==> Entry(m, l.dir, d) == 0
  }

  /** The table at address `a` maps the 1024 pages of directory index `d`. */
  ghost predicate TableStored(m: seq<byte>, a: nat, d: nat, pages: set<nat>)
    requires a + PAGE <= |m|
  {
    forall j: nat :: j < ENTRIES ==> Entry(m, a, j) == PageEntry(pages, d * ENTRIES + j)
  }

  ghost predicate MapStored(m: seq<byte>, l: Layout, s: Map)
    requires LayoutOk(l, |m|) && |s.slots| <= MAX_TABLES
  {
    && DirectoryStored(m, l, s.slots)
    && forall t :: 0 <= t < |s.slots| ==> TableStored(m, l.Table(t), s.slots[t], s.pages)
  }

  // ----- The walk -----

  /** What the processor finds for a linear address: nothing, or a physical address. */
  function Walk(m: seq<byte>, dir: nat, v: nat): Option<nat>
    requires v < WORD && dir + PAGE <= |m|
  {
    var pde := Entry(m, dir, v / 0x40_0000);
    if pde % 2 == 0 || FrameOf(pde) + PAGE > |m| then None
    else
      var pte := Entry(m, FrameOf(pde), v / PAGE % ENTRIES);
      if pte % 2 == 0 then None else Some(FrameOf(pte) + v % PAGE)
  }

  /** The address in an entry, its low twelve bits cleared. */
  function FrameOf(entry: nat): nat {
    entry - entry % PAGE
  }

  lemma EntryParts(a: nat)
    requires a % PAGE == 0
    ensures (a + FLAGS) % 2 == 1 && FrameOf(a + FLAGS) == a
  {
    assert a == PAGE * (a / PAGE);
    assert (a + FLAGS) % PAGE == FLAGS;
  }

  lemma PageParts(v: nat)
    ensures v / 0x40_0000 == v / PAGE / ENTRIES && v == v / PAGE * PAGE + v % PAGE
    ensures v / PAGE == v / PAGE / ENTRIES * ENTRIES + v / PAGE % ENTRIES
    ensures v < WORD ==> v / 0x40_0000 < ENTRIES
  {
  }

  lemma TableAligned(l: Layout, length: nat, t: nat)
    requires LayoutOk(l, length) && t < MAX_TABLES
    ensures l.Table(t) % PAGE == 0 && l.Table(t) + PAGE <= length
  {
  }

  /** The directory entry of an index that has a table. */
  lemma PresentSlot(m: seq<byte>, l: Layout, s: Map, t: nat)
    requires LayoutOk(l, |m|) && MapInv(s) && MapStored(m, l, s) && t < |s.slots|
    ensures s.slots[t] < ENTRIES && Entry(m, l.dir, s.slots[t]) == l.Table(t) + FLAGS
    ensures Entry(m, l.dir, s.slots[t]) % 2 == 1 && FrameOf(Entry(m, l.dir, s.slots[t])) == l.Table(t)
    ensures l.Table(t) + PAGE <= |m| && TableStored(m, l.Table(t), s.slots[t], s.pages)
  {
    hide Entry, FrameOf;
    TableAligned(l, |m|, t);
    EntryParts(l.Table(t));
  }

  lemma AbsentSlot(m: seq<byte>, l: Layout, s: Map, d: nat)
    requires LayoutOk(l, |m|) && |s.slots| <= MAX_TABLES && MapStored(m, l, s) && d < ENTRIES && d !in s.slots
    ensures Entry(m, l.dir, d) == 0
  {
    hide Entry;
  }

  /** Walking any address yields that same address when its page is mapped, and nothing when it
      is not. */
  lemma WalkIdentity(m: seq<byte>, l: Layout, s: Map, v: nat)
    requires LayoutOk(l, |m|) && MapInv(s) && MapStored(m, l, s) && v < WORD
    ensures Walk(m, l.dir, v) == if v / PAGE in s.pages then Some(v) else None
  {
    hide Entry, FrameOf, MapStored, DirectoryStored, TableStored, LayoutOk;
    var d := v / PAGE / ENTRIES;
    PageParts(v);
    if d in s.slots {
      var t :| 0 <= t < |s.slots| && s.slots[t] == d;
      PresentSlot(m, l, s, t);
      TableEntry(m, l.Table(t), d, s.pages, v / PAGE);
    } else {
      AbsentSlot(m, l, s, d);
    }
  }

  /** The entry of page `p` in the table of its directory index. */
  lemma TableEntry(m: seq<byte>, a: nat, d: nat, pages: set<nat>, p: nat)
    requires a + PAGE <= |m| && TableStored(m, a, d, pages) && d == p / ENTRIES
    ensures var e := Entry(m, a, p % ENTRIES);
      if p in pages then e % 2 == 1 && FrameOf(e) == p * PAGE else e % 2 == 0
  {
    hide Entry, FrameOf;
    var j := p % ENTRIES;
    assert p == d * ENTRIES + j;
    assert Entry(m, a, j) == PageEntry(pages, d * ENTRIES + j);
    EntryParts(p * PAGE);
  }

  /** Every entry in use grants the same rights, present, writable and user, and every other entry of
      a table or of the directory is 0. */
  lemma EntryRights(m: seq<byte>, l: Layout, s: Map, p: nat)
    requires LayoutOk(l, |m|) && MapInv(s) && MapStored(m, l, s) && p < 0x10_0000
    ensures var pde := Entry(m, l.dir, p / 1024);
      if p / 1024 !in s.slots then pde == 0
      else
        && pde % 4096 == 7 && pde - 7 + 4096 <= |m|
        && Entry(m, pde - 7, p % 1024) == if p in s.pages then p * 4096 + 7 else 0
  {
    hide Entry, MapStored, LayoutOk;
    LayoutFits(l, |m|);
    var d := p / ENTRIES;
    if d in s.slots {
      var t :| 0 <= t < |s.slots| && s.slots[t] == d;
      PresentSlot(m, l, s, t);
      SlotAligned(l, |m|, s, t);
      PageSplit(p);
      assert Entry(m, l.Table(t), p % ENTRIES) == PageEntry(s.pages, d * ENTRIES + p % ENTRIES);
    } else {
      AbsentSlot(m, l, s, d);
    }
  }

  lemma SlotAligned(l: Layout, length: nat, s: Map, t: nat)
    requires LayoutOk(l, length) && MapInv(s) && t < |s.slots|
    ensures (l.Table(t) + FLAGS) % 4096 == 7
  {
    TableAligned(l, length, t);
    var k := l.Table(t) / PAGE;
    assert l.Table(t) == PAGE * k;
  }

  /** After `paging_init` and any sequence of mapping calls, an address is either absent or
      translated to itself; the first 16 MB are present, the last 4 KB never. */
  lemma WalkAfterCalls(m: seq<byte>, l: Layout, calls: seq<Call>, v: nat)
    requires LayoutOk(l, |m|) && v < WORD
    requires var s := MapAll(Map([0, 1, 2, 3], Pages(0, NUM_PAGE_TABLES * ENTRIES)), calls);
      |s.slots| <= MAX_TABLES && MapStored(m, l, s)
    ensures Walk(m, l.dir, v) == None || Walk(m, l.dir, v) == Some(v)
    ensures v < 0x100_0000 ==> Walk(m, l.dir, v) == Some(v)
    ensures v >= 0xFFFF_F000 ==> Walk(m, l.dir, v) == None
  {
    hide Walk, MapStored, MapAll, Pages;
    BootMap();
    var s := Map([0, 1, 2, 3], Pages(0, NUM_PAGE_TABLES * ENTRIES));
    MapAllInv(s, calls);
    WalkIdentity(m, l, MapAll(s, calls), v);
  }

  /** Distinct present directory slots refer to distinct tables. */
  lemma TablesNotShared(m: seq<byte>, l: Layout, s: Map, d: nat, e: nat)
    requires LayoutOk(l, |m|) && MapInv(s) && MapStored(m, l, s) && d < ENTRIES && e < ENTRIES && d != e
    requires Entry(m, l.dir, d) % 2 == 1 && Entry(m, l.dir, e) % 2 == 1
    ensures FrameOf(Entry(m, l.dir, d)) != FrameOf(Entry(m, l.dir, e))
  {
    hide Entry, FrameOf, MapStored, DirectoryStored, TableStored;
    var t := TableOf(m, l, s, d);
    var u := TableOf(m, l, s, e);
    PresentSlot(m, l, s, t);
    PresentSlot(m, l, s, u);
  }

  lemma SlotsFit(s: Map)
    requires MapInv(s)
    ensures |s.slots| <= MAX_TABLES
  {
  }

  lemma TableOf(m: seq<byte>, l: Layout, s: Map, d: nat) returns (t: nat)
    requires LayoutOk(l, |m|) && MapInv(s) && MapStored(m, l, s) && d < ENTRIES && Entry(m, l.dir, d) % 2 == 1
    ensures t < |s.slots| && s.slots[t] == d
  {
    hide Entry, MapStored, MapInv;
    SlotsFit(s);
    if d !in s.slots { AbsentSlot(m, l, s, d); }
    t :| 0 <= t < |s.slots| && s.slots[t] == d;
  }

  /** `extra_tables_used` counts the present directory slots from index 4 on. */
  lemma ExtraTablesCounted(m: seq<byte>, l: Layout, s: Map, present: set<nat>)
    requires LayoutOk(l, |m|) && MapInv(s) && MapStored(m, l, s)
    requires forall d: nat :: d in present <==> NUM_PAGE_TABLES <= d < ENTRIES && Entry(m, l.dir, d) % 2 == 1
    ensures |present| == |s.slots| - NUM_PAGE_TABLES
  {
    hide Entry, MapStored, MapInv, LayoutOk;
    var extra := ExtraSlots(s);
    DistinctSize(extra);
    forall d: nat ensures d in present <==> d in Elements(extra) {
      if d < ENTRIES { PresentIsExtra(m, l, s, d); }
      ExtraInRange(s, d);
    }
    assert present == Elements(extra);
  }

  lemma ExtraSlots(s: Map) returns (extra: seq<nat>)
    requires MapInv(s)
    ensures extra == s.slots[NUM_PAGE_TABLES..] && |s.slots| >= NUM_PAGE_TABLES
    ensures Distinct(extra)
  {
    extra := s.slots[NUM_PAGE_TABLES..];
  }

  lemma ExtraInRange(s: Map, d: nat)
    requires MapInv(s)
    ensures d in s.slots[NUM_PAGE_TABLES..] ==> NUM_PAGE_TABLES <= d < ENTRIES
    ensures NUM_PAGE_TABLES <= d ==> (d in s.slots[NUM_PAGE_TABLES..] <==> d in s.slots)
  {
    var extra := s.slots[NUM_PAGE_TABLES..];
    assert s.slots == s.slots[..NUM_PAGE_TABLES] + extra;
    assert forall t :: 0 <= t < |extra| ==> extra[t] == s.slots[t + NUM_PAGE_TABLES];
    assert forall t :: 0 <= t < NUM_PAGE_TABLES ==> s.slots[..NUM_PAGE_TABLES][t] == t;
  }

  lemma PresentIsExtra(m: seq<byte>, l: Layout, s: Map, d: nat)
    requires LayoutOk(l, |m|) && MapInv(s) && MapStored(m, l, s) && d < ENTRIES
    ensures Entry(m, l.dir, d) % 2 == 1 <==> d in s.slots
  {
    hide Entry, MapStored, MapInv, LayoutOk, FrameOf, TableStored;
    LayoutFits(l, |m|);
    SlotsFit(s);
    if d in s.slots {
      var t :| 0 <= t < |s.slots| && s.slots[t] == d;
      PresentSlot(m, l, s, t);
    } else {
      AbsentSlot(m, l, s, d);
    }
  }

  // ----- Stores into the tables -----

  /** Two entries of the structures never overlap. */
  lemma EntryFrame(m: seq<byte>, n: seq<byte>, a: nat, j: nat, b: nat, k: nat)
    requires a + PAGE <= |m| && b + PAGE <= |m| && j < ENTRIES && k < ENTRIES
    requires SameOutside(m, n, a + 4 * j, a + 4 * j + 4)
    requires (a == b && j != k) || a + PAGE <= b || b + PAGE <= a
    ensures Entry(n, b, k) == Entry(m, b, k)
  {
    LoadFrame(m, n, a + 4 * j, a + 4 * j + 4, b + 4 * k);
  }

  /** No two of the nine structures overlap. */
  lemma Apart(l: Layout, length: nat, t: nat, u: nat)
    requires LayoutOk(l, length) && t < MAX_TABLES && u < MAX_TABLES
    ensures l.dir + PAGE <= l.Table(t) || l.Table(t) + PAGE <= l.dir
    ensures t != u ==> l.Table(t) + PAGE <= l.Table(u) || l.Table(u) + PAGE <= l.Table(t)
  {
  }

  lemma TableKept(m: seq<byte>, n: seq<byte>, a: nat, j: nat, b: nat, d: nat, pages: set<nat>)
    requires a + PAGE <= |m| && b + PAGE <= |m| && j < ENTRIES && TableStored(m, b, d, pages)
    requires SameOutside(m, n, a + 4 * j, a + 4 * j + 4) && (a + PAGE <= b || b + PAGE <= a)
    ensures TableStored(n, b, d, pages)
  {
    hide Entry;
    forall k: nat | k < ENTRIES ensures Entry(n, b, k) == PageEntry(pages, d * ENTRIES + k) {
      EntryFrame(m, n, a, j, b, k);
    }
  }

  /** Storing one page entry maps one more page. */
  lemma PageStored(m: seq<byte>, n: seq<byte>, l: Layout, s: Map, t: nat, j: nat, p: nat)
    requires LayoutOk(l, |m|) && MapInv(s) && MapStored(m, l, s) && t < |s.slots| && j < ENTRIES
    requires SameOutside(m, n, l.Table(t) + 4 * j, l.Table(t) + 4 * j + 4)
    requires p == s.slots[t] * ENTRIES + j
    requires l.Table(t) + PAGE <= |n| && Entry(n, l.Table(t), j) == p * PAGE + FLAGS
    ensures MapStored(n, l, Map(s.slots, s.pages + {p}))
  {
    hide Entry, MapInv;
    var pages := s.pages + {p};
    DistinctSlots(s);
    forall u | 0 <= u < |s.slots| ensures TableStored(n, l.Table(u), s.slots[u], pages) {
      TableAligned(l, |m|, u);
      Apart(l, |m|, t, u);
      forall k: nat | k < ENTRIES ensures Entry(n, l.Table(u), k) == PageEntry(pages, s.slots[u] * ENTRIES + k) {
        if u != t || k != j {
          EntryFrame(m, n, l.Table(t), j, l.Table(u), k);
          assert Entry(m, l.Table(u), k) == PageEntry(s.pages, s.slots[u] * ENTRIES + k);
          OtherPage(s.slots[t], j, s.slots[u], k);
        }
      }
    }
    Apart(l, |m|, t, t);
    DirectoryKept(m, n, l, s.slots, l.Table(t), j);
  }

  lemma DistinctSlots(s: Map)
    requires MapInv(s)
    ensures |s.slots| <= MAX_TABLES
    ensures forall t, u :: 0 <= t < |s.slots| && 0 <= u < |s.slots| && t != u ==> s.slots[t] != s.slots[u]
  {
  }

  lemma OtherPage(d: nat, j: nat, e: nat, k: nat)
    requires j < ENTRIES && k < ENTRIES && (d != e || j != k)
    ensures d * ENTRIES + j != e * ENTRIES + k
  {
  }

  lemma DirectoryKept(m: seq<byte>, n: seq<byte>, l: Layout, slots: seq<nat>, a: nat, j: nat)
    requires LayoutOk(l, |m|) && DirectoryStored(m, l, slots) && a + PAGE <= |m| && j < ENTRIES
    requires SameOutside(m, n, a + 4 * j, a + 4 * j + 4) && (a + PAGE <= l.dir || l.dir + PAGE <= a)
    ensures DirectoryStored(n, l, slots)
  {
    hide Entry;
    forall d: nat | d < ENTRIES ensures Entry(n, l.dir, d) == Entry(m, l.dir, d) {
      EntryFrame(m, n, a, j, l.dir, d);
    }
  }

  /** A cleared table becomes the table of a new directory index by one directory store. */
  lemma SlotStored(m: seq<byte>, n: seq<byte>, l: Layout, s: Map, d: nat)
    requires LayoutOk(l, |m|) && MapInv(s) && MapStored(m, l, s) && |s.slots| < MAX_TABLES && d < ENTRIES
      && d !in s.slots
    requires var a := l.Table(|s.slots|); a + PAGE <= |m| && forall j: nat :: j < ENTRIES ==> Entry(m, a, j) == 0
    requires SameOutside(m, n, l.dir + 4 * d, l.dir + 4 * d + 4) && Entry(n, l.dir, d) == l.Table(|s.slots|) + FLAGS
    ensures MapStored(n, l, Map(s.slots + [d], s.pages))
  {
    hide Entry;
    var slots, k := s.slots + [d], |s.slots|;
    forall e: nat | e < ENTRIES && e != d ensures Entry(n, l.dir, e) == Entry(m, l.dir, e) {
      EntryFrame(m, n, l.dir, d, l.dir, e);
    }
    NewSlotDirectory(m, n, l, s, d);
    forall t | 0 <= t < |slots| ensures TableStored(n, l.Table(t), slots[t], s.pages) {
      TableAligned(l, |m|, t);
      Apart(l, |m|, t, t);
      if t == k { EmptyTable(m, l.Table(k), s, d); }
      TableKept(m, n, l.dir, d, l.Table(t), slots[t], s.pages);
    }
  }

  lemma NewSlotDirectory(m: seq<byte>, n: seq<byte>, l: Layout, s: Map, d: nat)
    requires LayoutOk(l, |m|) && |n| == |m| && DirectoryStored(m, l, s.slots) && d < ENTRIES && d !in s.slots
    requires forall e: nat :: e < ENTRIES && e != d ==> Entry(n, l.dir, e) == Entry(m, l.dir, e)
    requires Entry(n, l.dir, d) == l.Table(|s.slots|) + FLAGS
    ensures DirectoryStored(n, l, s.slots + [d])
  {
    hide Entry;
    var slots := s.slots + [d];
    forall t | 0 <= t < |slots| ensures slots[t] < ENTRIES && Entry(n, l.dir, slots[t]) == l.Table(t) + FLAGS {
      if t < |s.slots| { assert slots[t] == s.slots[t] && s.slots[t] in s.slots; }
    }
    forall e: nat | e < ENTRIES && e !in slots ensures Entry(n, l.dir, e) == 0 {
      assert e != d && e !in s.slots by { assert slots[|s.slots|] == d; }
    }
  }

  /** A directory index without a table has no page mapped. */
  lemma EmptyTable(m: seq<byte>, a: nat, s: Map, d: nat)
    requires MapInv(s) && d !in s.slots && a + PAGE <= |m| && forall j: nat :: j < ENTRIES ==> Entry(m, a, j) == 0
    ensures TableStored(m, a, d, s.pages)
  {
    hide Entry;
    forall j: nat | j < ENTRIES ensures Entry(m, a, j) == PageEntry(s.pages, d * ENTRIES + j) {
      assert (d * ENTRIES + j) / ENTRIES == d;
    }
  }

  // ----- The bit operations of the code -----

  /** The masks and shifts of the loop, for the address of page `p`. */
  lemma AddressBits(p: nat)
    requires p < ALL_PAGES
    ensures p * PAGE < WORD && p * PAGE / 0x40_0000 == p / ENTRIES < ENTRIES
      && And(p * PAGE / PAGE, 0x3FF) == p % ENTRIES
    ensures Or(Or(Or(p * PAGE, 1), 2), 4) == p * PAGE + FLAGS
  {
    Powers();
    KeepLow(p, 10, 1024);
    FlagBits(p * 512);
    PageParts(p * PAGE);
  }

  lemma FlagBits(q: nat)
    ensures Or(Or(Or(8 * q, 1), 2), 4) == 8 * q + 7
  {
    hide Or;
    OrOne(4 * q);
    assert 2 * (4 * q) == 8 * q;
    OrOne(2 * q);
    OrStep(4 * q, 1, 1, 0);
    OrOne(q);
    OrStep(2 * q, 1, 1, 0);
    OrStep(4 * q + 1, 1, 2, 0);
  }

  lemma OrOne(x: nat)
    ensures Or(2 * x, 1) == 2 * x + 1
  {
    hide Or;
    OrZero(x);
    OrStep(x, 0, 0, 1);
  }

  /** Rounding an address down to its page. */
  lemma PageMask(x: nat)
    requires x < WORD
    ensures And(x, Not32(0xFFF)) == x - x % PAGE == x / PAGE * PAGE
  {
    Powers();
    ClearLow(x, 12, 4096, 20);
  }

  lemma PresentBit(x: nat)
    ensures And(x, 1) == x % 2
  {
    Powers();
    KeepLow(x, 1, 2);
  }

  // ----- Filling the tables -----

  /** Bytes outside the paging structures. */
  predicate OutsideTables(l: Layout, x: int) {
    && !(l.dir <= x < l.dir + PAGE) && !(l.boot <= x < l.boot + 4 * PAGE) && !(l.extra <= x < l.extra + 4 * PAGE)
  }

  ghost predicate OnlyTables(m: seq<byte>, n: seq<byte>, l: Layout) {
    |n| == |m| && forall x :: 0 <= x < |m| && OutsideTables(l, x) ==> n[x] == m[x]
  }

  function FillValue(first: nat, mapped: bool, j: nat): nat {
    if mapped then (first * ENTRIES + j) * PAGE + FLAGS else 0
  }

  /** The first `k` entries at `a` are filled, and nothing outside the table has changed. */
  ghost predicate Filled(m0: seq<byte>, m: seq<byte>, a: nat, first: nat, mapped: bool, k: nat) {
    && |m| == |m0| && a + PAGE <= |m|
    && (forall x :: 0 <= x < |m| && !(a <= x < a + PAGE) ==> m[x] == m0[x])
    && forall j: nat :: j < k && j < ENTRIES ==> Entry(m, a, j) == FillValue(first, mapped, j)
  }

  lemma FillStep(m0: seq<byte>, m: seq<byte>, n: seq<byte>, a: nat, first: nat, mapped: bool, k: nat)
    requires Filled(m0, m, a, first, mapped, k) && k < ENTRIES
    requires SameOutside(m, n, a + 4 * k, a + 4 * k + 4) && Load(n, a + 4 * k) == FillValue(first, mapped, k)
    ensures Filled(m0, n, a, first, mapped, k + 1)
  {
    hide Load, FillValue;
    forall j: nat | j < k + 1 && j < ENTRIES ensures Entry(n, a, j) == FillValue(first, mapped, j) {
      if j < k { EntryFrame(m, n, a, k, a, j); }
    }
  }

  /** Fills a table with the pages of directory index `first`, or with zeros. */
  method FillTable(ram: array<byte>, a: nat, first: nat, mapped: bool)
    requires a + PAGE <= ram.Length && (mapped ==> first < ENTRIES)
    modifies ram
    ensures Filled(old(ram[..]), ram[..], a, first, mapped, ENTRIES)
  {
    hide Load, Or, And, Filled, SameOutside;
    var i := 0;
    FillStart(ram[..], a, first, mapped);
    while i < ENTRIES
      invariant 0 <= i <= ENTRIES && Filled(old(ram[..]), ram[..], a, first, mapped, i)
    {
      ghost var m := ram[..];
      var entry := 0;
      if mapped {
        AddressBits(first * ENTRIES + i);
        entry := Or(Or(Or((first * ENTRIES + i) * PAGE, 1), 2), 4);
        EntryFits(first * ENTRIES + i);
      }
      Store(ram, a + 4 * i, entry);
      FillStep(old(ram[..]), m, ram[..], a, first, mapped, i);
      i := i + 1;
    }
  }

  lemma FillStart(m: seq<byte>, a: nat, first: nat, mapped: bool)
    requires a + PAGE <= |m|
    ensures Filled(m, m, a, first, mapped, 0)
  {
  }

  lemma EntryFits(p: nat)
    requires p < ALL_PAGES
    ensures p * PAGE + FLAGS < WORD
  {
  }

  // ----- paging_init -----

  /** The first `k` boot tables map their own 4 MB. */
  ghost predicate BootFilled(m: seq<byte>, l: Layout, k: nat) {
    LayoutOk(l, |m|) && k <= NUM_PAGE_TABLES &&
    forall t: nat :: t < k ==> forall j: nat :: j < ENTRIES ==> Entry(m, l.Table(t), j) == FillValue(t, true, j)
  }

  /** The directory holds the first `k` boot tables and nothing else. */
  ghost predicate BootLinked(m: seq<byte>, l: Layout, k: nat) {
    LayoutOk(l, |m|) && k <= NUM_PAGE_TABLES &&
    forall d: nat :: d < ENTRIES ==> Entry(m, l.dir, d) == if d < k then l.Table(d) + FLAGS else 0
  }

  lemma BootStart(m: seq<byte>, l: Layout)
    requires LayoutOk(l, |m|)
    ensures OnlyTables(m, m, l) && BootFilled(m, l, 0) && l.boot + 4 * PAGE <= |m|
    ensures l.boot % PAGE == 0 && l.dir % PAGE == 0
  {
  }

  /** Bytes of other structures survive the filling of one table. */
  lemma FilledKeeps(m: seq<byte>, n: seq<byte>, a: nat, first: nat, mapped: bool, b: nat, j: nat)
    requires Filled(m, n, a, first, mapped, ENTRIES) && b + PAGE <= |m| && j < ENTRIES
      && (a + PAGE <= b || b + PAGE <= a)
    ensures Entry(n, b, j) == Entry(m, b, j)
  {
  }

  lemma BootStep(m0: seq<byte>, m: seq<byte>, n: seq<byte>, l: Layout, k: nat)
    requires LayoutOk(l, |m|) && k < NUM_PAGE_TABLES && BootFilled(m, l, k) && OnlyTables(m0, m, l)
    requires Filled(m, n, l.boot + PAGE * k, k, true, ENTRIES)
    ensures OnlyTables(m0, n, l) && BootFilled(n, l, k + 1)
  {
    hide Entry;
    forall t: nat | t < k + 1
      ensures forall j: nat :: j < ENTRIES ==> Entry(n, l.Table(t), j) == FillValue(t, true, j) {
      Apart(l, |m|, t, k);
      forall j: nat | j < ENTRIES ensures Entry(n, l.Table(t), j) == FillValue(t, true, j) {
        if t < k { FilledKeeps(m, n, l.Table(k), k, true, l.Table(t), j); }
      }
    }
  }

  lemma DirectoryCleared(m0: seq<byte>, m: seq<byte>, n: seq<byte>, l: Layout)
    requires LayoutOk(l, |m|) && BootFilled(m, l, NUM_PAGE_TABLES) && OnlyTables(m0, m, l)
    requires Filled(m, n, l.dir, 0, false, ENTRIES)
    ensures OnlyTables(m0, n, l) && BootFilled(n, l, NUM_PAGE_TABLES) && BootLinked(n, l, 0)
  {
    hide Entry;
    forall t: nat | t < NUM_PAGE_TABLES
      ensures forall j: nat :: j < ENTRIES ==> Entry(n, l.Table(t), j) == FillValue(t, true, j)
    {
      Apart(l, |m|, t, t);
      forall j: nat | j < ENTRIES ensures Entry(n, l.Table(t), j) == FillValue(t, true, j) {
        FilledKeeps(m, n, l.dir, 0, false, l.Table(t), j);
      }
    }
    forall d: nat | d < ENTRIES ensures Entry(n, l.dir, d) == 0 {
      assert Entry(n, l.dir, d) == FillValue(0, false, d);
    }
  }

  lemma LinkStep(m0: seq<byte>, m: seq<byte>, n: seq<byte>, l: Layout, k: nat)
    requires LayoutOk(l, |m|) && k < NUM_PAGE_TABLES && OnlyTables(m0, m, l)
    requires BootFilled(m, l, NUM_PAGE_TABLES) && BootLinked(m, l, k)
    requires SameOutside(m, n, l.dir + 4 * k, l.dir + 4 * k + 4) && Load(n, l.dir + 4 * k) == l.boot + PAGE * k + FLAGS
    ensures OnlyTables(m0, n, l) && BootFilled(n, l, NUM_PAGE_TABLES) && BootLinked(n, l, k + 1)
  {
    EntryLoaded(n, l.dir, k);
    hide Entry, Load;
    forall t: nat | t < NUM_PAGE_TABLES
      ensures forall j: nat :: j < ENTRIES ==> Entry(n, l.Table(t), j) == FillValue(t, true, j)
    {
      Apart(l, |m|, t, t);
      forall j: nat | j < ENTRIES ensures Entry(n, l.Table(t), j) == FillValue(t, true, j) {
        EntryFrame(m, n, l.dir, k, l.Table(t), j);
      }
    }
    forall d: nat | d < ENTRIES ensures Entry(n, l.dir, d) == if d < k + 1 then l.Table(d) + FLAGS else 0 {
      if d != k { EntryFrame(m, n, l.dir, k, l.dir, d); }
    }
  }

  lemma BootMap()
    ensures MapInv(Map([0, 1, 2, 3], Pages(0, NUM_PAGE_TABLES * ENTRIES)))
  {
    var s := Map([0, 1, 2, 3], Pages(0, NUM_PAGE_TABLES * ENTRIES));
    forall p | p in s.pages ensures p < LAST_PAGE && p / ENTRIES in s.slots {
      assert p / ENTRIES < 4 && s.slots[p / ENTRIES] == p / ENTRIES;
    }
  }

  lemma BootStored(m: seq<byte>, l: Layout)
    requires LayoutOk(l, |m|) && BootFilled(m, l, NUM_PAGE_TABLES) && BootLinked(m, l, NUM_PAGE_TABLES)
    ensures MapStored(m, l, Map([0, 1, 2, 3], Pages(0, NUM_PAGE_TABLES * ENTRIES)))
  {
    hide Entry, Pages;
    var s := Map([0, 1, 2, 3], Pages(0, NUM_PAGE_TABLES * ENTRIES));
    forall t: nat | t < |s.slots| ensures TableStored(m, l.Table(t), s.slots[t], s.pages) {
      BootTable(m, l, t);
    }
    forall d: nat | d < ENTRIES && d !in s.slots ensures Entry(m, l.dir, d) == 0 {
      assert s.slots[0] == 0 && s.slots[1] == 1 && s.slots[2] == 2 && s.slots[3] == 3;
    }
  }

  lemma BootTable(m: seq<byte>, l: Layout, t: nat)
    requires LayoutOk(l, |m|) && BootFilled(m, l, NUM_PAGE_TABLES) && t < NUM_PAGE_TABLES
    ensures TableStored(m, l.Table(t), t, Pages(0, NUM_PAGE_TABLES * ENTRIES))
  {
    hide Entry;
    forall j: nat | j < ENTRIES
      ensures Entry(m, l.Table(t), j) == PageEntry(Pages(0, NUM_PAGE_TABLES * ENTRIES), t * ENTRIES + j)
    {
      assert Entry(m, l.Table(t), j) == FillValue(t, true, j);
    }
  }

  class Paging {
    const ram: array<byte>
    const layout: Layout
    var extraTablesUsed: nat
    ghost var map_: Map

    ghost predicate Valid()
      reads this, ram
    {
      && LayoutOk(layout, ram.Length) && MapInv(map_)
      && extraTablesUsed == |map_.slots| - NUM_PAGE_TABLES
      && MapStored(ram[..], layout, map_)
    }

    constructor (ram: array<byte>, layout: Layout)
      requires LayoutOk(layout, ram.Length)
      ensures this.ram == ram && this.layout == layout && extraTablesUsed == 0
    {
      this.ram, this.layout, extraTablesUsed := ram, layout, 0;
    }

    /** The tables filled by `paging_init`: the first 16 MB, mapped to themselves. */
    method Init()
      requires LayoutOk(layout, ram.Length) && extraTablesUsed == 0
      modifies this`map_, ram
      ensures Valid() && map_ == Map([0, 1, 2, 3], Pages(0, NUM_PAGE_TABLES * ENTRIES))
      ensures OnlyTables(old(ram[..]), ram[..], layout)
    {
      hide Entry, And, Or, LayoutOk, OnlyTables, Filled, BootFilled, BootLinked, MapStored, MapInv;
      ghost var m0 := ram[..];
      LayoutFits(layout, ram.Length);
      BootStart(m0, layout);
      var t := 0;
      while t < NUM_PAGE_TABLES
        invariant 0 <= t <= NUM_PAGE_TABLES && OnlyTables(m0, ram[..], layout) && BootFilled(ram[..], layout, t)
      {
        ghost var m := ram[..];
        FillTable(ram, layout.boot + PAGE * t, t, true);
        BootStep(m0, m, ram[..], layout, t);
        t := t + 1;
      }
      ghost var m1 := ram[..];
      FillTable(ram, layout.dir, 0, false);
      DirectoryCleared(m0, m1, ram[..], layout);
      t := 0;
      while t < NUM_PAGE_TABLES
        invariant 0 <= t <= NUM_PAGE_TABLES && OnlyTables(m0, ram[..], layout)
        invariant BootFilled(ram[..], layout, NUM_PAGE_TABLES) && BootLinked(ram[..], layout, t)
      {
        ghost var m := ram[..];
        TableAddress(layout.boot + PAGE * t);
        Store(ram, layout.dir + 4 * t, Or(Or(Or(layout.boot + PAGE * t, 1), 2), 4));
        LinkStep(m0, m, ram[..], layout, t);
        t := t + 1;
      }
      map_ := Map([0, 1, 2, 3], Pages(0, NUM_PAGE_TABLES * ENTRIES));
      BootMap();
      BootStored(ram[..], layout);
    }

    /** `paging_identity_map_region`, for any 32-bit arguments. */
    method IdentityMapRegion(physAddr: nat, size: nat)
      requires Valid() && physAddr < WORD && size < WORD
      modifies this, ram
      ensures Valid() && map_ == MapRegion(old(map_), physAddr, size)
      ensures OnlyTables(old(ram[..]), ram[..], layout)
    {
      hide Entry, MapStored, MapInv, And, Or, LayoutOk, OnlyTables, TableFor, MapPage;
      ghost var m0, s0, first, last := ram[..], map_, FirstPage(physAddr), EndPage(physAddr, size);
      PageMask(physAddr);
      PageMask(Add32(Add32(physAddr, size), 0xFFF));
      EndInSpace(physAddr, size);
      var start := And(physAddr, Not32(0xFFF));
      var end := And(Add32(Add32(physAddr, size), 0xFFF), Not32(0xFFF));
      var addr := start;
      ghost var p := first;
      NothingElse(m0, layout);
      while addr < end
        invariant addr == p * PAGE && end == last * PAGE && first <= p
        invariant Valid() && MapRange(s0, first, last) == MapRange(map_, p, last)
        invariant OnlyTables(m0, ram[..], layout)
        decreases last - p
      {
        ghost var m, s := ram[..], map_;
        AddressBits(p);
        var pdIndex := addr / 0x40_0000;
        var ptIndex := And(addr / 0x1000, 0x3FF);
        var enough := EnsureTable(pdIndex, p);
        ghost var m1 := ram[..];
        OnlyTablesTwice(m0, m, m1, layout);
        StopRange(s, p, last);
        if !enough { return; }
        SetEntry(pdIndex, ptIndex, addr, p);
        OnlyTablesTwice(m0, m1, ram[..], layout);
        NextAddress(p, last);
        addr := Add32(addr, 0x1000);
        p := p + 1;
      }
      RangeEmpty(map_, p, last);
    }

    /** The table of a directory index, taken from the extra ones when it has none. The
        abstract state then already counts the new table. */
    method EnsureTable(pdIndex: nat, ghost p: nat) returns (enough: bool)
      requires Valid() && p < LAST_PAGE && pdIndex == p / ENTRIES
      modifies this, ram
      ensures Valid() && map_.pages == old(map_).pages
      ensures enough == TableFor(old(map_), p)
      ensures map_.slots == if enough then MapPage(old(map_), p).slots else old(map_).slots
      ensures OnlyTables(old(ram[..]), ram[..], layout)
    {
      hide Entry, MapStored, MapInv, And, Or, LayoutOk, OnlyTables;
      ghost var m := ram[..];
      LayoutFits(layout, ram.Length);
      NothingElse(m, layout);
      SlotsFit(map_);
      DirectoryBit(m, layout, map_, pdIndex);
      if And(Word(ram, layout.dir + 4 * pdIndex), 1) == 0 {
        if extraTablesUsed >= NUM_EXTRA_TABLES { return false; }
        var newTable := layout.extra + PAGE * extraTablesUsed;
        extraTablesUsed := extraTablesUsed + 1;
        ExtraTableAddress(layout, ram.Length, |map_.slots|);
        FillTable(ram, newTable, 0, false);
        ghost var m1 := ram[..];
        TableAddress(newTable);
        Store(ram, layout.dir + 4 * pdIndex, Or(Or(Or(newTable, 1), 2), 4));
        NewTable(m, m1, ram[..], layout, map_, pdIndex, p);
        map_ := Map(map_.slots + [pdIndex], map_.pages);
      }
      enough := true;
    }

    method SetEntry(pdIndex: nat, ptIndex: nat, addr: nat, ghost p: nat)
      requires Valid() && p < LAST_PAGE && pdIndex == p / ENTRIES && ptIndex == p % ENTRIES && addr == p * PAGE
      requires pdIndex in map_.slots
      modifies this`map_, ram
      ensures Valid() && map_ == Map(old(map_).slots, old(map_).pages + {p})
      ensures OnlyTables(old(ram[..]), ram[..], layout)
    {
      hide Entry, MapStored, MapInv, And, Or, LayoutOk, OnlyTables, FrameOf, TableStored, SameOutside;
      ghost var m := ram[..];
      AddressBits(p);
      SlotsFit(map_);
      var table, t := FindTable(pdIndex);
      Store(ram, table + 4 * ptIndex, Or(Or(Or(addr, 1), 2), 4));
      EntryLoaded(ram[..], table, ptIndex);
      PageSplit(p);
      PageStored(m, ram[..], layout, map_, t, ptIndex, p);
      KnownTableInv(map_, p);
      TableOnly(m, ram[..], layout, t, ptIndex);
      map_ := Map(map_.slots, map_.pages + {p});
    }

    /** The address of the table that a present directory entry names: table `t`. */
    method FindTable(pdIndex: nat) returns (table: nat, ghost t: nat)
      requires Valid() && pdIndex < ENTRIES && pdIndex in map_.slots
      ensures t < |map_.slots| <= MAX_TABLES && map_.slots[t] == pdIndex
      ensures table == layout.Table(t) && table + PAGE <= ram.Length
    {
      hide Entry, MapStored, MapInv, And, Or, LayoutOk, FrameOf, TableStored;
      ghost var m := ram[..];
      LayoutFits(layout, ram.Length);
      SlotsFit(map_);
      t :| 0 <= t < |map_.slots| && map_.slots[t] == pdIndex;
      PresentSlot(m, layout, map_, t);
      EntryLoaded(m, layout.dir, pdIndex);
      PageMask(Word(ram, layout.dir + 4 * pdIndex));
      FrameIs(Word(ram, layout.dir + 4 * pdIndex));
      table := And(Word(ram, layout.dir + 4 * pdIndex), Not32(0xFFF));
    }
  }

  lemma EntryLoaded(m: seq<byte>, a: nat, i: nat)
    requires a + PAGE <= |m| && i < ENTRIES
    ensures Entry(m, a, i) == Load(m, a + 4 * i)
  {
  }

  lemma PageSplit(p: nat)
    ensures p == p / ENTRIES * ENTRIES + p % ENTRIES
  {
  }

  lemma KnownTableInv(s: Map, p: nat)
    requires MapInv(s) && p < LAST_PAGE && p / ENTRIES in s.slots
    ensures MapInv(Map(s.slots, s.pages + {p}))
  {
    MapPageInv(s, p);
  }

  lemma FrameIs(x: nat)
    ensures FrameOf(x) == x - x % PAGE
  {
  }

  lemma NothingElse(m: seq<byte>, l: Layout)
    ensures OnlyTables(m, m, l)
  {
  }

  lemma LayoutFits(l: Layout, length: nat)
    requires LayoutOk(l, length)
    ensures l.dir + PAGE <= length <= WORD && l.extra + 4 * PAGE <= length
  {
  }

  lemma ExtraTableAddress(l: Layout, length: nat, k: nat)
    requires LayoutOk(l, length) && NUM_PAGE_TABLES <= k < MAX_TABLES
    ensures l.extra + PAGE * (k - NUM_PAGE_TABLES) == l.Table(k) && l.Table(k) + PAGE <= length
      && l.Table(k) % PAGE == 0
  {
  }

  lemma TableAddress(a: nat)
    requires a % PAGE == 0
    ensures Or(Or(Or(a, 1), 2), 4) == a + FLAGS
  {
    hide Or;
    var k := a / PAGE;
    assert a == PAGE * k;
    FlagBits(512 * k);
  }

  /** The present bit the code tests says whether the directory index has a table. */
  lemma DirectoryBit(m: seq<byte>, l: Layout, s: Map, d: nat)
    requires LayoutOk(l, |m|) && MapInv(s) && MapStored(m, l, s) && d < ENTRIES
    ensures And(Load(m, l.dir + 4 * d), 1) == 0 <==> d !in s.slots
  {
    hide Entry, MapStored, MapInv, And, FrameOf, LayoutOk;
    LayoutFits(l, |m|);
    SlotsFit(s);
    EntryLoaded(m, l.dir, d);
    PresentBit(Entry(m, l.dir, d));
    if d in s.slots {
      var t :| 0 <= t < |s.slots| && s.slots[t] == d;
      PresentSlot(m, l, s, t);
    } else {
      AbsentSlot(m, l, s, d);
    }
  }

  lemma StopRange(s: Map, p: nat, last: nat)
    requires p < last
    ensures !TableFor(s, p) ==> MapRange(s, p, last) == s
    ensures TableFor(s, p) ==> MapRange(s, p, last) == MapRange(MapPage(s, p), p + 1, last)
    ensures p / ENTRIES in MapPage(s, p).slots && MapPage(s, p).pages == s.pages + {p}
  {
  }

  lemma NextAddress(p: nat, last: nat)
    requires p < last <= LAST_PAGE
    ensures Add32(p * PAGE, 0x1000) == (p + 1) * PAGE
  {
  }

  lemma OnlyTablesTwice(m: seq<byte>, m1: seq<byte>, n: seq<byte>, l: Layout)
    requires OnlyTables(m, m1, l) && OnlyTables(m1, n, l)
    ensures OnlyTables(m, n, l)
  {
  }

  lemma TableOnly(m: seq<byte>, n: seq<byte>, l: Layout, t: nat, j: nat)
    requires LayoutOk(l, |m|) && t < MAX_TABLES && j < ENTRIES
    requires SameOutside(m, n, l.Table(t) + 4 * j, l.Table(t) + 4 * j + 4)
    ensures OnlyTables(m, n, l)
  {
  }

  /** Clearing the next extra table and entering it in the directory. */
  lemma NewTable(m: seq<byte>, m1: seq<byte>, n: seq<byte>, l: Layout, s: Map, d: nat, p: nat)
    requires LayoutOk(l, |m|) && MapInv(s) && MapStored(m, l, s) && |s.slots| < MAX_TABLES
    requires p < LAST_PAGE && d == p / ENTRIES && d !in s.slots
    requires var a := l.Table(|s.slots|);
      && Filled(m, m1, a, 0, false, ENTRIES)
      && SameOutside(m1, n, l.dir + 4 * d, l.dir + 4 * d + 4) && Load(n, l.dir + 4 * d) == a + FLAGS
    ensures MapInv(Map(s.slots + [d], s.pages)) && MapStored(n, l, Map(s.slots + [d], s.pages))
    ensures OnlyTables(m, n, l)
  {
    hide Load, MapStored, MapInv, LayoutOk;
    var a := l.Table(|s.slots|);
    LayoutFits(l, |m|);
    SlotInv(s, d);
    UnusedTable(m, m1, l, s);
    assert Entry(n, l.dir, d) == a + FLAGS;
    forall j: nat | j < ENTRIES ensures Entry(m1, a, j) == 0 {
      assert Entry(m1, a, j) == FillValue(0, false, j);
    }
    SlotStored(m1, n, l, s, d);
    NewTableFrame(m, m1, n, l, |s.slots|, d);
  }

  lemma SlotInv(s: Map, d: nat)
    requires MapInv(s) && d !in s.slots && d < ENTRIES && |s.slots| < MAX_TABLES
    ensures |s.slots| >= NUM_PAGE_TABLES
    ensures MapInv(Map(s.slots + [d], s.pages))
  {
    assert s.slots[0] == 0 && s.slots[1] == 1 && s.slots[2] == 2 && s.slots[3] == 3;
  }

  lemma NewTableFrame(m: seq<byte>, m1: seq<byte>, n: seq<byte>, l: Layout, k: nat, d: nat)
    requires LayoutOk(l, |m|) && NUM_PAGE_TABLES <= k < MAX_TABLES && d < ENTRIES
    requires Filled(m, m1, l.Table(k), 0, false, ENTRIES) && SameOutside(m1, n, l.dir + 4 * d, l.dir + 4 * d + 4)
    ensures OnlyTables(m, n, l)
  {
    hide Entry;
  }

  /** Filling a table that is not in use keeps what is mapped. */
  lemma UnusedTable(m: seq<byte>, n: seq<byte>, l: Layout, s: Map)
    requires LayoutOk(l, |m|) && MapInv(s) && MapStored(m, l, s) && |s.slots| < MAX_TABLES
    requires Filled(m, n, l.Table(|s.slots|), 0, false, ENTRIES)
    ensures MapStored(n, l, s)
  {
    hide Entry, MapInv;
    var a := l.Table(|s.slots|);
    Apart(l, |m|, |s.slots|, |s.slots|);
    forall d: nat | d < ENTRIES ensures Entry(n, l.dir, d) == Entry(m, l.dir, d) {
      EntrySame(m, n, a, l.dir, d);
    }
    forall t | 0 <= t < |s.slots| ensures TableStored(n, l.Table(t), s.slots[t], s.pages) {
      TableAligned(l, |m|, t);
      Apart(l, |m|, t, |s.slots|);
      forall j: nat | j < ENTRIES ensures Entry(n, l.Table(t), j) == PageEntry(s.pages, s.slots[t] * ENTRIES + j) {
        EntrySame(m, n, a, l.Table(t), j);
        assert Entry(m, l.Table(t), j) == PageEntry(s.pages, s.slots[t] * ENTRIES + j);
      }
    }
  }

  lemma EntrySame(m: seq<byte>, n: seq<byte>, a: nat, b: nat, j: nat)
    requires Filled(m, n, a, 0, false, ENTRIES) && b + PAGE <= |m| && j < ENTRIES && (a + PAGE <= b || b + PAGE <= a)
    ensures Entry(n, b, j) == Entry(m, b, j)
  {
  }
}
