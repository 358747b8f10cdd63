/** What paging.c maps, page by page. A page number is an address divided by 4096; a directory
    index is a page number divided by 1024. */
module PagingSpec {
  import opened Bits

  const PAGE: nat := 0x1000
  const ENTRIES: nat := 1024
  const NUM_PAGE_TABLES: nat := 4
  const NUM_EXTRA_TABLES: nat := 4
  const MAX_TABLES: nat := 8
  const ALL_PAGES: nat := 0x10_0000
  const LAST_PAGE: nat := 0xF_FFFF      // the page no call can map

  /** `slots[t]` is the directory index that table `t` serves: the four boot tables first, then
      the extra tables in the order they were taken. `pages` are the pages mapped. */
  datatype Map = Map(slots: seq<nat>, pages: set<nat>)

  ghost predicate MapInv(s: Map) {
    && NUM_PAGE_TABLES <= |s.slots| <= MAX_TABLES
    && (forall t :: 0 <= t < NUM_PAGE_TABLES ==> s.slots[t] == t)
    && (forall t :: NUM_PAGE_TABLES <= t < |s.slots| ==> NUM_PAGE_TABLES <= s.slots[t] < ENTRIES)
    && (forall t, u :: 0 <= t < u < |s.slots| ==> s.slots[t] != s.slots[u])
    && (forall p :: p in s.pages ==> p < LAST_PAGE && p / ENTRIES in s.slots)
    && forall p: nat :: p < NUM_PAGE_TABLES * ENTRIES ==> p in s.pages
  }

  /** One pass of the loop of `paging_identity_map_region`, or nothing when no table is left. */
  function MapPage(s: Map, p: nat): Map {
    var slots := if p / ENTRIES in s.slots then s.slots else s.slots + [p / ENTRIES];
    Map(slots, s.pages + {p})
  }

  predicate TableFor(s: Map, p: nat) {
    p / ENTRIES in s.slots || |s.slots| < MAX_TABLES
  }

  /** The loop from page `p` up to page `end`. */
  function MapRange(s: Map, p: nat, end: nat): Map
    decreases end - p
  {
    if p >= end || !TableFor(s, p) then s else MapRange(MapPage(s, p), p + 1, end)
  }

  function FirstPage(addr: nat): nat {
    addr / PAGE
  }

  /** The page where the loop ends, computed in 32-bit arithmetic. */
  function EndPage(addr: nat, size: nat): nat {
    Add32(Add32(addr, size), PAGE - 1) / PAGE
  }

  function MapRegion(s: Map, addr: nat, size: nat): Map {
    MapRange(s, FirstPage(addr), EndPage(addr, size))
  }
}
