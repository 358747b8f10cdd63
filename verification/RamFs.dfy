/** The file system of ramfs.c: a fixed table changed in place, contents in heap memory. Every
    operation is proved against RamFsSpec. */
module RamFs {
  import opened Bits
  import opened Memory
  import opened Strings
  import opened HeapSpec
  import opened HeapLaws
  import HeapRuns
  import opened HeapOwners
  import opened Heap
  import opened HeapPayloads
  import opened RamFsSpec
  import opened RamFsLaws

  /** A `ramfs_file_t`; `name` is its array of MAX_NAME characters. */
  datatype File = File(name: seq<byte>, data: nat, size: nat, used: bool)

  ghost function SlotsOf(files: seq<File>, contents: seq<seq<byte>>): (slots: seq<Slot>)
    requires |contents| == |files|
    ensures |slots| == |files|
    ensures forall i :: 0 <= i < |files| ==>
      slots[i] == Slot(CStr(files[i].name), files[i].data, contents[i], files[i].used)
  {
    seq(|files|, i requires 0 <= i < |files| =>
      Slot(CStr(files[i].name), files[i].data, contents[i], files[i].used))
  }

  ghost predicate FileOk(f: File, bytes: seq<byte>) {
    |f.name| == MAX_NAME && Terminated(f.name) && f.size == |bytes|
  }

  ghost predicate TableStored(files: seq<File>, contents: seq<seq<byte>>) {
    && |files| == |contents| == MAX_FILES
    && forall i :: 0 <= i < |files| ==> FileOk(files[i], contents[i])
  }

  /** The memory of every non-empty file holds its contents. */
  ghost predicate ContentStored(m: seq<byte>, slots: seq<Slot>) {
    forall i :: 0 <= i < |slots| && slots[i].data != 0 ==> Holds(m, slots[i].data, slots[i].bytes)
  }

  ghost predicate Holds(m: seq<byte>, a: nat, bytes: seq<byte>) {
    a + |bytes| <= |m| && m[a..a + |bytes|] == bytes
  }

  /** A source that `kmalloc` will not overwrite: inside a live block, or outside the heap. */
  ghost predicate Readable(heap: seq<Block>, src: nat, n: nat, lo: nat, hi: nat) {
    (exists b :: b in Live(heap) && b.Payload() <= src && src + n <= b.End()) || src + n <= lo || hi <= src
  }

  /** No byte outside the heap and no byte of a live payload differs. */
  ghost predicate KeepsLive(m: seq<byte>, n: seq<byte>, heap: seq<Block>, lo: nat, hi: nat) {
    && |n| == |m|
    && forall x :: 0 <= x < |m| && Guarded(heap, lo, hi, x) ==> n[x] == m[x]
  }

  ghost predicate Guarded(heap: seq<Block>, lo: nat, hi: nat, x: int) {
    x < lo || hi <= x || exists b :: b in Live(heap) && b.Payload() <= x < b.End()
  }

  lemma HoldsFrame(m: seq<byte>, n: seq<byte>, a: nat, bytes: seq<byte>)
    requires Holds(m, a, bytes) && SameBytes(m, n, a, |bytes|)
    ensures Holds(n, a, bytes)
  {
    assert n[a..a + |bytes|] == m[a..a + |bytes|];
  }

  /** Heap operations keep the contents of owned files. */
  lemma HeadersKeepContent(m: seq<byte>, n: seq<byte>, fs: Fs, lo: nat, hi: nat)
    requires WellFormed(fs.heap, lo, hi) && hi <= |m| && OnlyHeaders(m, n, fs.heap) && Owned(fs)
    requires ContentStored(m, fs.slots)
    ensures ContentStored(n, fs.slots)
  {
    hide Tiles, OnlyHeaders, OwnsBlock, InPayload, SameBytes, Holds, Compact, Aligned;
    forall i | 0 <= i < |fs.slots| && fs.slots[i].data != 0 ensures Holds(n, fs.slots[i].data, fs.slots[i].bytes) {
      var s := fs.slots[i];
      OwnsInPayload(fs.heap, s.data, |s.bytes|);
      PayloadBytes(m, n, fs.heap, s.data, |s.bytes|, lo, hi);
      HoldsFrame(m, n, s.data, s.bytes);
    }
  }

  /** Filling a new block changes no other file. */
  lemma FillKeepsContent(m: seq<byte>, n: seq<byte>, fs: Fs, p: nat, k: nat, lo: nat, hi: nat)
    requires WellFormed(fs.heap, lo, hi) && Owned(fs) && ContentStored(m, fs.slots)
    requires OwnsBlock(fs.heap, p, k) && SameOutside(m, n, p, p + k)
    requires forall i :: 0 <= i < |fs.slots| ==> fs.slots[i].data != p
    ensures ContentStored(n, fs.slots)
  {
    hide Tiles, OwnsBlock, Compact, Aligned;
    forall i | 0 <= i < |fs.slots| && fs.slots[i].data != 0 ensures Holds(n, fs.slots[i].data, fs.slots[i].bytes) {
      var s := fs.slots[i];
      OwnedApart(fs.heap, p, k, s.data, |s.bytes|, lo, hi);
      HoldsFrame(m, n, s.data, s.bytes);
    }
  }

  /** `memcpy_ramfs`, between ranges that do not meet. */
  method MemCpy(ram: array<byte>, dst: nat, src: nat, n: nat)
    requires dst + n <= ram.Length && src + n <= ram.Length && Disjoint(dst, n, src, n)
    modifies ram
    ensures ram[dst..dst + n] == old(ram[src..src + n])
    ensures SameOutside(old(ram[..]), ram[..], dst, dst + n)
  {
    var i := 0;
    while i < n
      invariant 0 <= i <= n
      invariant forall x :: 0 <= x < ram.Length && !(dst <= x < dst + i) ==> ram[x] == old(ram[x])
      invariant ram[dst..dst + i] == old(ram[src..src + i])
    {
      label Before:
      ram[dst + i] := ram[src + i];
      assert ram[dst..dst + i] == old@Before(ram[dst..dst + i]);
      assert ram[dst..dst + i + 1] == ram[dst..dst + i] + [ram[dst + i]];
      assert old(ram[src..src + i + 1]) == old(ram[src..src + i]) + [old(ram[src + i])];
      i := i + 1;
    }
  }

  // ----- ramfs_write on slots -----

  lemma SlotsTable(files: seq<File>, contents: seq<seq<byte>>, i: nat, f: File, bytes: seq<byte>)
    requires TableStored(files, contents) && i < |files| && FileOk(f, bytes)
    ensures TableStored(files[i := f], contents[i := bytes])
    ensures SlotsOf(files[i := f], contents[i := bytes]) ==
      SlotsOf(files, contents)[i := Slot(CStr(f.name), f.data, bytes, f.used)]
  {
  }

  const BLANK: File := File(seq(MAX_NAME, _ => 0), 0, 0, false)

  lemma BlankTable(files: seq<File>, contents: seq<seq<byte>>, m: seq<byte>, heap: seq<Block>, lo: nat, hi: nat)
    requires |files| == |contents| == MAX_FILES && WellFormed(heap, lo, hi)
    requires forall i :: 0 <= i < MAX_FILES ==> files[i] == BLANK && contents[i] == []
    ensures var slots := SlotsOf(files, contents);
      TableStored(files, contents) && FsInv(Fs(slots, heap), lo, hi) && ContentStored(m, slots) && Files(slots) == map[]
  {
    hide WellFormed;
    assert BLANK.name[0] == 0;
    forall name ensures name !in Files(SlotsOf(files, contents)) {
      FilesAt(SlotsOf(files, contents), name);
    }
  }

  lemma Cleared(before: seq<File>, files: seq<File>, contents: seq<seq<byte>>, m: seq<byte>, heap: seq<Block>,
                lo: nat, hi: nat)
    requires TableStored(before, contents) && |files| == |before| && WellFormed(heap, lo, hi)
    requires forall j :: 0 <= j < |files| ==> files[j] == before[j].(used := false, data := 0, size := 0)
    ensures var none: seq<seq<byte>> := seq(MAX_FILES, _ => []); var slots := SlotsOf(files, none);
      TableStored(files, none) && FsInv(Fs(slots, heap), lo, hi) && ContentStored(m, slots) && Files(slots) == map[]
  {
    hide WellFormed, Terminated;
    var none: seq<seq<byte>> := seq(MAX_FILES, _ => []);
    forall j | 0 <= j < |files| ensures FileOk(files[j], none[j]) {
      assert FileOk(before[j], contents[j]);
    }
    forall name ensures name !in Files(SlotsOf(files, none)) {
      FilesAt(SlotsOf(files, none), name);
    }
  }

  /** The table after the name has been copied and the slot marked used. */
  lemma ClaimStored(before: seq<File>, files: seq<File>, contents: seq<seq<byte>>, i: nat, name: seq<byte>)
    requires TableStored(before, contents) && i < |before| == |files| && TableStored(before, contents)
    requires i == Target(SlotsOf(before, contents), name) && !before[i].used
    requires files == before[i := files[i]] && files[i] == before[i].(name := files[i].name, used := true)
    requires |files[i].name| == MAX_NAME && Terminated(files[i].name) && CStr(files[i].name) == name
    ensures TableStored(files, contents) && SlotsOf(files, contents) == Claim(SlotsOf(before, contents), name)
  {
    hide CStr;
    assert FileOk(before[i], contents[i]);
    SlotsTable(before, contents, i, files[i], contents[i]);
    assert contents[i := contents[i]] == contents;
  }

  lemma ClaimKeeps(fs: Fs, name: seq<byte>, m: seq<byte>)
    requires TableOk(fs.slots) && |name| < MAX_NAME && 0 !in name && Target(fs.slots, name) < |fs.slots|
    requires Owned(fs) && ContentStored(m, fs.slots)
    ensures Owned(Fs(Claim(fs.slots, name), fs.heap)) && ContentStored(m, Claim(fs.slots, name))
  {
    ClaimOk(fs.slots, name);
    hide OwnsBlock, Holds;
    SameOwned(fs, Fs(Claim(fs.slots, name), fs.heap));
  }

  // ----- The memory steps of ramfs_write -----

  lemma KeepsAll(m: seq<byte>, heap: seq<Block>, lo: nat, hi: nat)
    ensures KeepsLive(m, m, heap, lo, hi)
  {
  }

  lemma TableLength(slots: seq<Slot>)
    requires TableOk(slots)
    ensures |slots| == MAX_FILES
  {
  }

  lemma AllocFailed(heap: seq<Block>, n: nat, lo: nat, hi: nat)
    requires WellFormed(heap, lo, hi) && n < WORD
    ensures HeapSpec.Kmalloc(heap, n).1 == 0 ==> HeapSpec.Kmalloc(heap, n).0 == heap
  {
    hide HeapSpec.Kmalloc, WellFormed;
    var _ := KmallocStep(heap, n, lo, hi);
  }

  /** `kmalloc` reaches no guarded byte. */
  lemma AllocGuards(m: seq<byte>, n: seq<byte>, heap: seq<Block>, size: nat, lo: nat, hi: nat)
    requires WellFormed(heap, lo, hi) && size < WORD && OnlyHeaders(m, n, HeapSpec.Kmalloc(heap, size).0)
    ensures KeepsLive(m, n, heap, lo, hi)
  {
    hide WellFormed, HeapSpec.Kmalloc, InHeader;
    forall x | 0 <= x < |m| && Guarded(heap, lo, hi, x) ensures n[x] == m[x] {
      KmallocFrame(m, n, heap, size, lo, hi, x);
    }
  }

  /** The state after a successful allocation: nothing owned has moved, and the source is
      untouched and apart from the new block. */
  lemma AllocKeeps(m: seq<byte>, m1: seq<byte>, fs: Fs, src: nat, n: nat, lo: nat, hi: nat)
    requires FsInv(fs, lo, hi) && hi <= |m| && 0 < n <= WORD - 8 && src + n <= |m|
    requires Readable(fs.heap, src, n, lo, hi) && ContentStored(m, fs.slots)
    requires var (h, p) := HeapSpec.Kmalloc(fs.heap, n); p != 0 && OnlyHeaders(m, m1, h)
    ensures var (h, p) := HeapSpec.Kmalloc(fs.heap, n);
      && FsInv(Fs(fs.slots, h), lo, hi) && ContentStored(m1, fs.slots) && KeepsLive(m, m1, fs.heap, lo, hi)
      && OwnsBlock(h, p, n) && (forall j :: 0 <= j < |fs.slots| ==> fs.slots[j].data != p)
      && (forall b :: b in Live(fs.heap) ==> b in Live(h))
      && p + n <= |m| && Disjoint(p, n, src, n) && m1[src..src + n] == m[src..src + n]
  {
    hide WellFormed, HeapSpec.Kmalloc, TableOk, OnlyHeaders, OwnsBlock, ContentStored;
    var (h, p) := HeapSpec.Kmalloc(fs.heap, n);
    AllocOwned(fs, n, lo, hi);
    AllocGuards(m, m1, fs.heap, n, lo, hi);
    var b := HeapRuns.KmallocDisjoint(fs.heap, n, lo, hi);
    var b' := KmallocStep(fs.heap, n, lo, hi);
    HeadersKeepContent(m, m1, Fs(fs.slots, h), lo, hi);
    SourceApart(fs.heap, h, b, src, n, lo, hi);
    forall x | src <= x < src + n ensures m1[x] == m[x] {
      assert Guarded(fs.heap, lo, hi, x);
    }
  }

  lemma SourceApart(heap: seq<Block>, h: seq<Block>, b: Block, src: nat, n: nat, lo: nat, hi: nat)
    requires Readable(heap, src, n, lo, hi) && b !in Live(heap) && b.size >= n
    requires forall c :: c in Live(heap) ==> c in Live(h)
    requires lo <= b.Payload() && b.End() <= hi
    requires forall c :: c in h && c != b ==> b.End() <= c.addr || c.End() <= b.addr
    ensures Disjoint(b.Payload(), n, src, n)
  {
    if c :| c in Live(heap) && c.Payload() <= src && src + n <= c.End() {
      assert c in Live(h) && c != b;
    }
  }

  /** Copying into the new block completes it and disturbs nothing. */
  lemma FillKeeps(m: seq<byte>, m1: seq<byte>, n: seq<byte>, fs: Fs, bytes: seq<byte>, lo: nat, hi: nat)
    requires 0 < |bytes| < WORD && WellFormed(fs.heap, lo, hi) && hi <= |m|
    requires var (h, p) := HeapSpec.Kmalloc(fs.heap, |bytes|);
      && p != 0 && FsInv(Fs(fs.slots, h), lo, hi) && OwnsBlock(h, p, |bytes|)
      && (forall j :: 0 <= j < |fs.slots| ==> fs.slots[j].data != p)
      && p + |bytes| <= |m1| && SameOutside(m1, n, p, p + |bytes|) && n[p..p + |bytes|] == bytes
    requires ContentStored(m1, fs.slots) && KeepsLive(m, m1, fs.heap, lo, hi)
    ensures var (h, p) := HeapSpec.Kmalloc(fs.heap, |bytes|);
      && ContentStored(n, fs.slots) && KeepsLive(m, n, fs.heap, lo, hi) && Holds(n, p, bytes)
      && (Stored(m1, h) ==> Stored(n, h))
  {
    hide WellFormed, HeapSpec.Kmalloc, TableOk, OwnsBlock, Owned, ContentStored, Stored;
    var (h, p) := HeapSpec.Kmalloc(fs.heap, |bytes|);
    FillKeepsContent(m1, n, Fs(fs.slots, h), p, |bytes|, lo, hi);
    var b := KmallocStep(fs.heap, |bytes|, lo, hi);
    NewBlockFacts(h, b, p, |bytes|, lo, hi);
    FillGuards(m, m1, n, fs.heap, h, b, p, |bytes|, lo, hi);
    if Stored(m1, h) { PayloadStored(m1, n, h, p, |bytes|, lo, hi); }
  }

  lemma NewBlockFacts(h: seq<Block>, b: Block, p: nat, n: nat, lo: nat, hi: nat)
    requires WellFormed(h, lo, hi) && b in Live(h) && b.Payload() == p && OwnsBlock(h, p, n)
    ensures Tiles(h, lo, hi) && InPayload(h, p, n) && n <= b.size
  {
    var c :| c in Live(h) && c.Payload() == p && c.size >= n;
    LiveUnique(h, b, c, lo, hi);
  }

  lemma FillGuards(m: seq<byte>, m1: seq<byte>, n: seq<byte>, heap: seq<Block>, h: seq<Block>, b: Block, p: nat,
                   k: nat, lo: nat, hi: nat)
    requires KeepsLive(m, m1, heap, lo, hi) && SameOutside(m1, n, p, p + k) && Tiles(h, lo, hi)
    requires b in Live(h) && b !in Live(heap) && b.Payload() == p && k <= b.size
    requires forall c :: c in Live(heap) ==> c in Live(h)
    ensures KeepsLive(m, n, heap, lo, hi)
  {
    HeapRuns.BlocksDisjoint(h, b, lo, hi);
    forall x | 0 <= x < |m| && Guarded(heap, lo, hi, x) ensures n[x] == m[x] {
      assert !(p <= x < p + k);
    }
  }

  lemma ReplaceKeeps(fs: Fs, i: nat, s: Slot, lo: nat, hi: nat)
    requires FsInv(fs, lo, hi) && i < |fs.slots| && fs.slots[i].used && (s.data == 0 <==> s.bytes == [])
    requires s == fs.slots[i].(data := s.data, bytes := s.bytes)
    requires s.data != 0 ==> OwnsBlock(fs.heap, s.data, |s.bytes|)
    requires s.data != 0 ==> forall j :: 0 <= j < |fs.slots| ==> fs.slots[j].data != s.data
    ensures Freeable(fs.heap, fs.slots[i].data)
    ensures FsInv(Fs(fs.slots[i := s], HeapSpec.Kfree(fs.heap, fs.slots[i].data)), lo, hi)
  {
    hide WellFormed, OwnsBlock, HeapSpec.Kfree, Owned, TableOk;
    TableSlot(fs.slots, i);
    FreeOwned(fs.slots, fs.heap, i, s, lo, hi);
    SlotsOk(fs.slots, i, s);
  }

  /** `kfree` disturbs neither the contents of files nor any guarded byte. */
  lemma FreeKeeps(m: seq<byte>, m1: seq<byte>, n: seq<byte>, fs: Fs, before: seq<Block>, i: nat, s: Slot, lo: nat,
                  hi: nat)
    requires WellFormed(fs.heap, lo, hi) && hi <= |m1| && Owned(fs) && i < |fs.slots|
    requires OnlyHeaders(m1, n, fs.heap) && ContentStored(m1, fs.slots)
    requires s.data != 0 ==> OwnsBlock(fs.heap, s.data, |s.bytes|) && Holds(m1, s.data, s.bytes)
    requires KeepsLive(m, m1, before, lo, hi) && forall b :: b in Live(before) ==> b in Live(fs.heap)
    ensures ContentStored(n, fs.slots[i := s]) && KeepsLive(m, n, before, lo, hi)
  {
    hide WellFormed, OwnsBlock, InHeader, Holds, SameBytes, Tiles;
    HeadersKeepContent(m1, n, fs, lo, hi);
    if s.data != 0 {
      OwnsInPayload(fs.heap, s.data, |s.bytes|);
      WellTiles(fs.heap, lo, hi);
      PayloadBytes(m1, n, fs.heap, s.data, |s.bytes|, lo, hi);
      HoldsFrame(m1, n, s.data, s.bytes);
    }
    forall x | 0 <= x < |m| && Guarded(before, lo, hi, x) ensures n[x] == m[x] {
      FreeGuards(m1, n, fs.heap, before, lo, hi, x);
    }
  }

  lemma WellTiles(heap: seq<Block>, lo: nat, hi: nat)
    requires WellFormed(heap, lo, hi)
    ensures Tiles(heap, lo, hi)
  {
  }

  lemma FreeGuards(m1: seq<byte>, n: seq<byte>, heap: seq<Block>, before: seq<Block>, lo: nat, hi: nat, x: nat)
    requires WellFormed(heap, lo, hi) && OnlyHeaders(m1, n, heap) && x < |m1| && Guarded(before, lo, hi, x)
    requires forall b :: b in Live(before) ==> b in Live(heap)
    ensures n[x] == m1[x]
  {
    hide WellFormed, OnlyHeaders;
    KfreeFrame(m1, n, heap, lo, hi, x);
  }

  class RamFs {
    const heap: Heap
    const files: array<File>
    var ready: bool
    ghost var contents: seq<seq<byte>>

    ghost function Abs(): Fs
      requires |contents| == files.Length
      reads this, heap, files
    {
      Fs(SlotsOf(files[..], contents), heap.blocks)
    }

    ghost predicate Valid()
      reads this, heap, heap.ram, files
    {
      && heap.Valid() && TableStored(files[..], contents)
      && FsInv(Abs(), heap.heapBaseAddr, heap.Limit())
      && ContentStored(heap.ram[..], Abs().slots)
    }

    /** The table as static memory holds it, all zero. */
    constructor (heap: Heap)
      requires heap.Valid()
      ensures Valid() && !ready && this.heap == heap && fresh(files) && Files(Abs().slots) == map[]
    {
      hide Stored, WellFormed, TableStored, FsInv, ContentStored, Files, CStr;
      this.heap := heap;
      files := new File[MAX_FILES](_ => BLANK);
      contents := seq(MAX_FILES, _ => []);
      ready := false;
      new;
      BlankTable(files[..], contents, heap.ram[..], heap.blocks, heap.heapBaseAddr, heap.Limit());
    }

    /** `ramfs_init` forgets every file; it frees nothing, and is meant to run once. */
    method Init()
      requires Valid()
      modifies this, files
      ensures Valid() && ready && heap.blocks == old(heap.blocks) && Files(Abs().slots) == map[]
    {
      hide Stored, WellFormed, FsInv, ContentStored, CStr, SlotsOf, Files, Terminated;
      ghost var before := files[..];
      ghost var heapOk := Abs();
      var i := 0;
      while i < MAX_FILES
        invariant 0 <= i <= MAX_FILES && |files[..]| == |before| && contents == old(contents)
        invariant forall j :: i <= j < MAX_FILES ==> files[j] == before[j]
        invariant forall j :: 0 <= j < i ==> files[j] == before[j].(used := false, data := 0, size := 0)
      {
        files[i] := files[i].(used := false);
        files[i] := files[i].(data := 0);
        files[i] := files[i].(size := 0);
        i := i + 1;
      }
      Cleared(before, files[..], contents, heap.ram[..], heap.blocks, heap.heapBaseAddr, heap.Limit());
      contents := seq(MAX_FILES, _ => []);
      ready := true;
    }

    /** `ramfs_find`. */
    method Find(name: seq<byte>) returns (idx: int)
      requires TableStored(files[..], contents) && Terminated(name)
      ensures var i := RamFsSpec.Find(SlotsOf(files[..], contents), CStr(name));
        idx == if i < MAX_FILES then i else -1
    {
      hide CStr;
      ghost var slots := SlotsOf(files[..], contents);
      var i := 0;
      while i < MAX_FILES
        invariant 0 <= i <= MAX_FILES
        invariant forall j :: 0 <= j < i ==> !(slots[j].used && slots[j].name == CStr(name))
      {
        assert FileOk(files[..][i], contents[i]);
        if files[i].used {
          var order := Strcmp(files[i].name, name);
          if order == 0 {
            FirstFound(slots, CStr(name), i);
            return i;
          }
        }
        i := i + 1;
      }
      FirstFound(slots, CStr(name), i);
      return -1;
    }

    /** `ramfs_find_free`. */
    method FindFree() returns (idx: int)
      requires TableStored(files[..], contents)
      ensures var i := RamFsSpec.FindFree(SlotsOf(files[..], contents));
        idx == if i < MAX_FILES then i else -1
    {
      ghost var slots := SlotsOf(files[..], contents);
      var i := 0;
      while i < MAX_FILES
        invariant 0 <= i <= MAX_FILES && forall j :: 0 <= j < i ==> slots[j].used
      {
        if !files[i].used {
          FirstFree(slots, i);
          return i;
        }
        i := i + 1;
      }
      FirstFree(slots, i);
      return -1;
    }

    /** The loop of `ramfs_write` that copies the name of a new file into its slot. */
    method CopyName(idx: nat, name: seq<byte>)
      requires TableStored(files[..], contents) && idx < MAX_FILES
      requires Terminated(name) && |CStr(name)| < MAX_NAME
      modifies files
      ensures TableStored(files[..], contents)
      ensures files[..] == old(files[..])[idx := files[idx]]
      ensures CStr(files[idx].name) == CStr(name)
      ensures files[idx] == old(files[idx]).(name := files[idx].name)
    {
      hide CStr;
      CStrEnds(name);
      assert FileOk(files[..][idx], contents[idx]);
      var i := 0;
      while name[i] != 0 && i < MAX_NAME - 1
        invariant 0 <= i <= |CStr(name)|
        invariant files[..] == old(files[..])[idx := files[idx]]
        invariant files[idx] == old(files[idx]).(name := files[idx].name) && |files[idx].name| == MAX_NAME
        invariant files[idx].name[..i] == name[..i]
        decreases MAX_NAME - i
      {
        CStrAt(name, i);
        files[idx] := files[idx].(name := files[idx].name[i := name[i]]);
        assert files[idx].name[..i + 1] == name[..i] + [name[i]] == name[..i + 1];
        i := i + 1;
      }
      CStrAt(name, i);
      files[idx] := files[idx].(name := files[idx].name[i := 0]);
      NameCopied(files[idx].name, name, i);
      forall j | 0 <= j < |files[..]| ensures FileOk(files[..][j], contents[j]) {
        assert FileOk(old(files[..])[j], contents[j]);
      }
    }

    /** The first half of `ramfs_write`: the slot for the name, claimed if it is new, or -1. */
    method ClaimSlot(name: seq<byte>) returns (idx: int)
      requires Valid() && Terminated(name) && |CStr(name)| < MAX_NAME
      modifies files
      ensures Valid()
      ensures var i := Target(old(Abs()).slots, CStr(name));
        if i == MAX_FILES then idx == -1 && Abs() == old(Abs())
        else idx == i && Abs() == Fs(Claim(old(Abs()).slots, CStr(name)), heap.blocks)
    {
      hide CStr, Stored, WellFormed, TableOk, Owned, Terminated, ContentStored, SlotOk;
      ghost var fs, before := Abs(), files[..];
      idx := Find(name);
      if idx < 0 {
        idx := FindFree();
        if idx < 0 { return; }
        CopyName(idx, name);
        files[idx] := files[idx].(used := true);
        ClaimStored(before, files[..], contents, idx, CStr(name));
      }
      ClaimOk(fs.slots, CStr(name));
      ClaimKeeps(fs, CStr(name), heap.ram[..]);
    }

    /** `ramfs_write`. `name` is the memory from the name pointer on, `src` the address of the
        new contents, which may lie in the file's own old block. */
    method Write(name: seq<byte>, src: nat, n: nat) returns (result: int)
      requires Valid() && Terminated(name) && n <= WORD - 8
      requires n > 0 ==> src + n <= heap.ram.Length && Readable(heap.blocks, src, n, heap.heapBaseAddr, heap.Limit())
      modifies this`contents, files, heap`blocks, heap.ram
      ensures Valid()
      ensures !ready ==> result == -1 && Abs() == old(Abs()) && heap.ram[..] == old(heap.ram[..])
      ensures ready ==>
        (Abs(), result) == RamFsSpec.Write(old(Abs()), CStr(name), if n == 0 then [] else old(heap.ram[src..src + n]))
      ensures KeepsLive(old(heap.ram[..]), heap.ram[..], old(heap.blocks), heap.heapBaseAddr, heap.Limit())
    {
      hide CStr, Stored, WellFormed, TableOk, Owned, Terminated, Kmalloc, Kfree, OnlyHeaders, ContentStored, Claim,
        KeepsLive, SlotsOf, Readable, Holds, OwnsBlock;
      ghost var fs, m, lo, hi := Abs(), heap.ram[..], heap.heapBaseAddr, heap.Limit();
      ghost var bytes := if n == 0 then [] else m[src..src + n];
      KeepsAll(m, fs.heap, lo, hi);
      if !ready { return -1; }
      var len := Strlen(name);
      if len >= MAX_NAME { return -1; }
      var idx := ClaimSlot(name);
      TableLength(fs.slots);
      if idx < 0 { return -1; }
      ClaimOk(fs.slots, CStr(name));
      ghost var slots := Abs().slots;
      var newbuf := 0;
      if n > 0 {
        newbuf := heap.Kmalloc(n);
        if newbuf == 0 {
          AllocFailed(fs.heap, n, lo, hi);
          return -1;
        }
        AllocKeeps(m, heap.ram[..], Fs(slots, fs.heap), src, n, lo, hi);
        ghost var m1 := heap.ram[..];
        MemCpy(heap.ram, newbuf, src, n);
        FillKeeps(m, m1, heap.ram[..], Fs(slots, fs.heap), bytes, lo, hi);
      }
      Replace(idx, newbuf, n, fs.heap, m, bytes);
      result := 0;
    }

    /** The last three assignments of `ramfs_write`. */
    method Replace(idx: nat, newbuf: nat, n: nat, ghost before: seq<Block>, ghost m: seq<byte>, ghost bytes: seq<byte>)
      requires heap.Valid() && TableStored(files[..], contents) && idx < MAX_FILES && |bytes| == n
      requires FsInv(Abs(), heap.heapBaseAddr, heap.Limit()) && ContentStored(heap.ram[..], Abs().slots)
      requires newbuf == 0 <==> bytes == []
      requires newbuf != 0 ==> OwnsBlock(heap.blocks, newbuf, n) && Holds(heap.ram[..], newbuf, bytes)
      requires newbuf != 0 ==> forall j :: 0 <= j < |Abs().slots| ==> Abs().slots[j].data != newbuf
      requires KeepsLive(m, heap.ram[..], before, heap.heapBaseAddr, heap.Limit())
      requires forall b :: b in Live(before) ==> b in Live(heap.blocks)
      requires Abs().slots[idx].used
      modifies this`contents, files, heap`blocks, heap.ram
      ensures Valid()
      ensures var old_ := old(Abs());
        Abs() == Fs(old_.slots[idx := old_.slots[idx].(data := newbuf, bytes := bytes)],
                    HeapSpec.Kfree(old_.heap, old_.slots[idx].data))
      ensures KeepsLive(m, heap.ram[..], before, heap.heapBaseAddr, heap.Limit())
    {
      hide CStr, Stored, WellFormed, Terminated, Kmalloc, HeapSpec.Kfree, OnlyHeaders, KeepsLive, OwnsBlock, Holds,
        TableOk, Owned, ContentStored;
      ghost var fs, m1, lo, hi := Abs(), heap.ram[..], heap.heapBaseAddr, heap.Limit();
      assert FileOk(files[..][idx], contents[idx]);
      ghost var s := fs.slots[idx].(data := newbuf, bytes := bytes);
      ReplaceKeeps(fs, idx, s, lo, hi);
      FreeNull(fs.heap, m1);
      if files[idx].data != 0 { heap.Kfree(files[idx].data); }
      FreeKeeps(m, m1, heap.ram[..], fs, before, idx, s, lo, hi);
      SlotsTable(files[..], contents, idx, files[idx].(data := newbuf, size := n), bytes);
      files[idx] := files[idx].(data := newbuf);
      files[idx] := files[idx].(size := n);
      contents := contents[idx := bytes];
      assert files[..] == old(files[..])[idx := old(files[idx]).(data := newbuf, size := n)];
    }

    /** `ramfs_read`: where the contents lie and how long they are. */
    method Read(name: seq<byte>) returns (result: int, data: nat, size: nat)
      requires Valid() && Terminated(name)
      ensures result == if CStr(name) in Files(Abs().slots) then 0 else -1
      ensures result == 0 ==>
        var bytes := Files(Abs().slots)[CStr(name)]; size == |bytes| && (size > 0 ==> Holds(heap.ram[..], data, bytes))
    {
      hide CStr, Stored, WellFormed, Terminated, Holds, Files, Owned;
      var idx := Find(name);
      FilesAt(Abs().slots, CStr(name));
      if idx < 0 { return -1, 0, 0; }
      assert FileOk(files[..][idx], contents[idx]);
      TableSlot(Abs().slots, idx);
      return 0, files[idx].data, files[idx].size;
    }

    /** `ramfs_delete`. */
    method Delete(name: seq<byte>) returns (result: int)
      requires Valid() && Terminated(name)
      modifies this`contents, files, heap`blocks, heap.ram
      ensures Valid()
      ensures (Abs(), result) == RamFsSpec.Delete(old(Abs()), CStr(name))
      ensures KeepsLive(old(heap.ram[..]), heap.ram[..], old(heap.blocks), heap.heapBaseAddr, heap.Limit())
    {
      hide CStr, Stored, WellFormed, TableOk, Owned, Terminated, HeapSpec.Kfree, OnlyHeaders, ContentStored,
        KeepsLive, Holds, OwnsBlock;
      ghost var fs, m, lo, hi := Abs(), heap.ram[..], heap.heapBaseAddr, heap.Limit();
      KeepsAll(m, fs.heap, lo, hi);
      TableLength(fs.slots);
      var idx := Find(name);
      if idx < 0 { return -1; }
      ghost var s := fs.slots[idx].(data := 0, bytes := [], used := false);
      assert FileOk(files[..][idx], contents[idx]);
      DeleteInv(fs, CStr(name), lo, hi);
      FreeOwned(fs.slots, fs.heap, idx, s, lo, hi);
      FreeNull(fs.heap, m);
      if files[idx].data != 0 { heap.Kfree(files[idx].data); }
      FreeKeeps(m, m, heap.ram[..], fs, fs.heap, idx, s, lo, hi);
      SlotsTable(files[..], contents, idx, files[idx].(data := 0, size := 0, used := false), []);
      files[idx] := files[idx].(data := 0);
      files[idx] := files[idx].(size := 0);
      files[idx] := files[idx].(used := false);
      contents := contents[idx := []];
      assert files[..] == old(files[..])[idx := old(files[idx]).(data := 0, size := 0, used := false)];
      result := 0;
    }
  }

  lemma CStrAt(s: seq<byte>, i: nat)
    requires Terminated(s) && i <= |CStr(s)| && |CStr(s)| < |s|
    ensures s[i] == 0 <==> i == |CStr(s)|
  {
    var _ := CStr(s);
  }

  lemma NameCopied(copy: seq<byte>, name: seq<byte>, i: nat)
    requires |CStr(name)| == i < |name| && i < |copy| && copy[..i] == name[..i] && copy[i] == 0
    ensures CStr(copy) == CStr(name) && Terminated(copy)
  {
    forall j | 0 <= j < i ensures copy[j] != 0 {
      assert copy[j] == copy[..i][j] == name[..i][j];
    }
    CStrIs(copy, i);
  }

  lemma {:induction false} FirstFound(slots: seq<Slot>, name: seq<byte>, i: nat)
    requires i <= |slots| && forall j :: 0 <= j < i ==> !(slots[j].used && slots[j].name == name)
    requires i < |slots| ==> slots[i].used && slots[i].name == name
    ensures RamFsSpec.Find(slots, name) == i
  {
    var _ := RamFsSpec.Find(slots, name);
  }

  lemma {:induction false} FirstFree(slots: seq<Slot>, i: nat)
    requires i <= |slots| && forall j :: 0 <= j < i ==> slots[j].used
    requires i < |slots| ==> !slots[i].used
    ensures RamFsSpec.FindFree(slots) == i
  {
    var _ := RamFsSpec.FindFree(slots);
  }
}
