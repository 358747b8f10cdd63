/** The file table refines a map from names to contents, and owns exactly the memory of its
    non-empty files. */
module RamFsLaws {
  import opened Collections
  import opened Bits
  import opened Memory
  import opened HeapSpec
  import opened HeapLaws
  import HeapRuns
  import opened HeapOwners
  import opened RamFsSpec

  // ----- Looking names up -----

  lemma SlotFound(slots: seq<Slot>, i: nat)
    requires TableOk(slots) && i < |slots| && slots[i].used
    ensures RamFsSpec.Find(slots, slots[i].name) == i
  {
    var _ := RamFsSpec.Find(slots, slots[i].name);
  }

  /** A name is in the map exactly when it is found, with the contents of its slot. */
  lemma FilesAt(slots: seq<Slot>, name: seq<byte>)
    ensures name in Files(slots) <==> RamFsSpec.Find(slots, name) < |slots|
    ensures name in Files(slots) ==> Files(slots)[name] == slots[RamFsSpec.Find(slots, name)].bytes
  {
    var i := RamFsSpec.Find(slots, name);
    if i < |slots| {
      assert slots[i] in slots;
      assert name in Names(slots);
    }
  }

  /** Changing the contents of one used slot updates the map there. */
  lemma FilesUpdate(slots: seq<Slot>, slots': seq<Slot>, i: nat)
    requires TableOk(slots) && TableOk(slots') && i < |slots|
    requires forall j :: 0 <= j < |slots| && j != i ==> slots'[j] == slots[j]
    requires slots'[i].used && (slots[i].used ==> slots[i].name == slots'[i].name)
    ensures Files(slots') == Files(slots)[slots'[i].name := slots'[i].bytes]
  {
    forall name
      ensures name in Files(slots') <==> name == slots'[i].name || name in Files(slots)
      ensures name in Files(slots') ==>
        Files(slots')[name] == if name == slots'[i].name then slots'[i].bytes else Files(slots)[name]
    {
      SameLookup(slots, slots', i, name);
      FilesAt(slots, name);
      FilesAt(slots', name);
      SlotFound(slots', i);
    }
  }

  /** A slot that does not carry the name, before or after, does not matter to its lookup. */
  lemma SameLookup(slots: seq<Slot>, slots': seq<Slot>, i: nat, name: seq<byte>)
    requires TableOk(slots) && TableOk(slots') && i < |slots|
    requires forall j :: 0 <= j < |slots| && j != i ==> slots'[j] == slots[j]
    ensures !(slots[i].used && slots[i].name == name) && !(slots'[i].used && slots'[i].name == name) ==>
      RamFsSpec.Find(slots, name) == RamFsSpec.Find(slots', name) != i
  {
    var a, b := RamFsSpec.Find(slots, name), RamFsSpec.Find(slots', name);
    if !(slots[i].used && slots[i].name == name) && !(slots'[i].used && slots'[i].name == name) {
      if a < |slots| { SlotFound(slots', a); }
      if b < |slots'| { SlotFound(slots, b); }
    }
  }

  lemma FilesRemove(slots: seq<Slot>, slots': seq<Slot>, i: nat)
    requires TableOk(slots) && TableOk(slots') && i < |slots|
    requires forall j :: 0 <= j < |slots| && j != i ==> slots'[j] == slots[j]
    requires slots[i].used && !slots'[i].used
    ensures Files(slots') == Files(slots) - {slots[i].name}
  {
    hide Files;
    forall name
      ensures name in Files(slots') <==> name in Files(slots) && name != slots[i].name
      ensures name in Files(slots') ==> Files(slots')[name] == Files(slots)[name]
    {
      RemoveLookup(slots, slots', i, name);
      FilesAt(slots, name);
      FilesAt(slots', name);
    }
  }

  lemma RemoveLookup(slots: seq<Slot>, slots': seq<Slot>, i: nat, name: seq<byte>)
    requires TableOk(slots) && TableOk(slots') && i < |slots|
    requires forall j :: 0 <= j < |slots| && j != i ==> slots'[j] == slots[j]
    requires slots[i].used && !slots'[i].used
    ensures var a, b := RamFsSpec.Find(slots, name), RamFsSpec.Find(slots', name);
      if name == slots[i].name then a == i && b == |slots| else a == b && (a < |slots| ==> slots'[a] == slots[a])
  {
    SlotFound(slots, i);
    SameLookup(slots, slots', i, name);
    assert forall j :: 0 <= j < |slots| && j != i && slots[j].used ==> slots[j].name != slots[i].name;
  }

  // ----- The table stays well formed -----

  lemma ClaimOk(slots: seq<Slot>, name: seq<byte>)
    requires TableOk(slots) && |name| < MAX_NAME && 0 !in name && Target(slots, name) < |slots|
    ensures var i, r := Target(slots, name), Claim(slots, name);
      && TableOk(r) && r[i].used && r[i].name == name && r[i].data == slots[i].data && r[i].bytes == slots[i].bytes
      && (forall j :: 0 <= j < |slots| && j != i ==> r[j] == slots[j])
      && (slots[i].used ==> slots[i].name == name && r == slots)
  {
    var i, r := Target(slots, name), Claim(slots, name);
    forall j | 0 <= j < |r| ensures SlotOk(r[j]) {
      assert SlotOk(slots[j]);
    }
  }

  lemma SlotsOk(slots: seq<Slot>, i: nat, s: Slot)
    requires TableOk(slots) && i < |slots| && SlotOk(s)
    requires s.used ==> slots[i].used && s.name == slots[i].name
    requires s.data != 0 ==> forall j :: 0 <= j < |slots| && j != i ==> slots[j].data != s.data
    ensures TableOk(slots[i := s])
  {
  }

  // ----- Ownership -----

  lemma AllocOwned(fs: Fs, n: nat, lo: nat, hi: nat)
    requires FsInv(fs, lo, hi) && 0 < n <= WORD - 8
    ensures var (h, p) := Kmalloc(fs.heap, n);
      && WellFormed(h, lo, hi) && Owned(Fs(fs.slots, h))
      && (p != 0 ==> OwnsBlock(h, p, n) && forall j :: 0 <= j < |fs.slots| ==> fs.slots[j].data != p)
  {
    hide Kmalloc, WellFormed, OwnsBlock, Stale;
    KmallocFresh(fs.heap, n, lo, hi);
    var (h, p) := Kmalloc(fs.heap, n);
    forall j | 0 <= j < |fs.slots| && fs.slots[j].data != 0
      ensures OwnsBlock(h, fs.slots[j].data, |fs.slots[j].bytes|) && fs.slots[j].data != p
    {
      KmallocOwns(fs.heap, n, fs.slots[j].data, |fs.slots[j].bytes|, lo, hi);
    }
  }

  /** Freeing the data of one slot keeps what the others own. */
  lemma FreeOwned(slots: seq<Slot>, heap: seq<Block>, i: nat, s: Slot, lo: nat, hi: nat)
    requires TableOk(slots) && WellFormed(heap, lo, hi) && Owned(Fs(slots, heap)) && i < |slots|
    requires s.data != 0 ==> OwnsBlock(heap, s.data, |s.bytes|) && s.data != slots[i].data
    ensures Freeable(heap, slots[i].data)
    ensures WellFormed(Kfree(heap, slots[i].data), lo, hi)
    ensures Owned(Fs(slots[i := s], Kfree(heap, slots[i].data)))
  {
    hide Kfree, WellFormed, OwnsBlock;
    var p := slots[i].data;
    OwnedFreeable(heap, p, |slots[i].bytes|);
    HeapRuns.StepWellFormed(heap, HeapRuns.Free(p), lo, hi);
    var r := slots[i := s];
    forall j | 0 <= j < |r| && r[j].data != 0 ensures OwnsBlock(Kfree(heap, p), r[j].data, |r[j].bytes|) {
      KfreeOwns(heap, p, r[j].data, |r[j].bytes|, lo, hi);
    }
  }

  // ----- ramfs_write and ramfs_delete -----

  /** `ramfs_write` keeps the invariant. */
  lemma WriteInv(fs: Fs, name: seq<byte>, bytes: seq<byte>, lo: nat, hi: nat)
    requires FsInv(fs, lo, hi) && |bytes| <= WORD - 8 && 0 !in name
    ensures FsInv(Write(fs, name, bytes).0, lo, hi)
  {
    hide Kmalloc, Kfree, WellFormed, OwnsBlock, TableOk;
    var i := Target(fs.slots, name);
    if |name| < MAX_NAME && i < |fs.slots| {
      ClaimOk(fs.slots, name);
      var slots := Claim(fs.slots, name);
      SameOwned(fs, Fs(slots, fs.heap));
      if bytes != [] { AllocOwned(Fs(slots, fs.heap), |bytes|, lo, hi); }
      var (h, p) := if bytes == [] then (fs.heap, 0) else Kmalloc(fs.heap, |bytes|);
      if bytes == [] || p != 0 {
        var s := slots[i].(data := p, bytes := bytes);
        TableSlot(slots, i);
        FreeOwned(slots, h, i, s, lo, hi);
        SlotsOk(slots, i, s);
      }
    }
  }

  lemma TableSlot(slots: seq<Slot>, i: nat)
    requires TableOk(slots) && i < |slots|
    ensures SlotOk(slots[i])
  {
  }

  lemma SameOwned(fs: Fs, gs: Fs)
    requires Owned(fs) && gs.heap == fs.heap && |gs.slots| == |fs.slots|
    requires forall j :: 0 <= j < |fs.slots| ==>
      gs.slots[j].data == fs.slots[j].data && gs.slots[j].bytes == fs.slots[j].bytes
    ensures Owned(gs)
  {
    hide OwnsBlock;
  }

  /** `ramfs_write` succeeds exactly when the name is short enough, present or room for it, and
      the heap can hold the contents; then the map is updated. When only the heap fails, a new
      name is left behind with empty contents; any other failure changes nothing. */
  lemma WriteRefines(fs: Fs, name: seq<byte>, bytes: seq<byte>, lo: nat, hi: nat)
    requires FsInv(fs, lo, hi) && |bytes| <= WORD - 8 && 0 !in name
    ensures var (r, result) := Write(fs, name, bytes);
      var files := Files(fs.slots);
      var fits := |name| < 32 && (name in files || |files| < 32);
      var allocates := bytes == [] || Kmalloc(fs.heap, |bytes|).1 != 0;
      && (result == 0 <==> fits && allocates) && (result == 0 || result == -1)
      && Files(r.slots) ==
         if !fits then files else if allocates then files[name := bytes]
         else if name in files then files else files[name := []]
  {
    hide Kmalloc, Kfree, WellFormed, OwnsBlock, Owned, TableOk, SlotOk, Files, Names;
    var (r, result) := Write(fs, name, bytes);
    var i := Target(fs.slots, name);
    FilesAt(fs.slots, name);
    RoomLeft(fs.slots);
    if |name| < MAX_NAME && i < |fs.slots| {
      ClaimOk(fs.slots, name);
      WriteInv(fs, name, bytes, lo, hi);
      ClaimRefines(fs.slots, name);
      if result == 0 { FilesUpdate(fs.slots, r.slots, i); }
    }
  }

  lemma ClaimRefines(slots: seq<Slot>, name: seq<byte>)
    requires TableOk(slots) && |name| < MAX_NAME && 0 !in name && Target(slots, name) < |slots|
    ensures var files := Files(slots);
      Files(Claim(slots, name)) == if name in files then files else files[name := []]
  {
    var i := Target(slots, name);
    ClaimOk(slots, name);
    FilesAt(slots, name);
    assert SlotOk(slots[i]);
    if name !in Files(slots) { FilesUpdate(slots, Claim(slots, name), i); }
  }

  lemma DeleteInv(fs: Fs, name: seq<byte>, lo: nat, hi: nat)
    requires FsInv(fs, lo, hi)
    ensures FsInv(Delete(fs, name).0, lo, hi)
  {
    hide Kfree, WellFormed, OwnsBlock, TableOk;
    var i := RamFsSpec.Find(fs.slots, name);
    if i < |fs.slots| {
      var s := fs.slots[i].(data := 0, bytes := [], used := false);
      FreeOwned(fs.slots, fs.heap, i, s, lo, hi);
      SlotsOk(fs.slots, i, s);
    }
  }

  /** `ramfs_delete` removes the name and nothing else, and fails exactly when it is absent. */
  lemma DeleteRefines(fs: Fs, name: seq<byte>, lo: nat, hi: nat)
    requires FsInv(fs, lo, hi)
    ensures var (r, result) := Delete(fs, name);
      && (result == 0 <==> name in Files(fs.slots)) && (result == 0 || result == -1)
      && Files(r.slots) == Files(fs.slots) - {name}
  {
    hide Kfree, WellFormed, OwnsBlock, Owned, TableOk, SlotOk, Files, Names;
    var i := RamFsSpec.Find(fs.slots, name);
    FilesAt(fs.slots, name);
    DeleteInv(fs, name, lo, hi);
    if i < |fs.slots| { FilesRemove(fs.slots, Delete(fs, name).0.slots, i); }
  }

  // ----- Capacity -----

  ghost function UsedNames(slots: seq<Slot>): seq<seq<byte>> {
    if slots == [] then []
    else (if slots[0].used then [slots[0].name] else []) + UsedNames(slots[1..])
  }

  lemma {:induction false} UsedNamesElements(slots: seq<Slot>, name: seq<byte>)
    ensures name in UsedNames(slots) <==> exists s :: s in slots && s.used && s.name == name
  {
    if slots != [] {
      UsedNamesElements(slots[1..], name);
      assert slots == [slots[0]] + slots[1..];
    }
  }

  lemma {:induction false} UsedNamesDistinct(slots: seq<Slot>)
    requires forall i, j :: 0 <= i < j < |slots| && slots[i].used && slots[j].used ==> slots[i].name != slots[j].name
    ensures Distinct(UsedNames(slots)) && |UsedNames(slots)| <= |slots|
    ensures |UsedNames(slots)| == |slots| <==> FindFree(slots) == |slots|
  {
    if slots != [] {
      var t := slots[1..];
      assert forall i :: 0 <= i < |t| ==> t[i] == slots[i + 1];
      UsedNamesDistinct(t);
      UsedNamesElements(t, slots[0].name);
      forall s | s in t && s.used ensures slots[0].used ==> s.name != slots[0].name {
        var k :| 0 <= k < |t| && t[k] == s;
        assert slots[k + 1] == s;
      }
    }
  }

  /** A slot is free exactly when there are fewer files than slots. */
  lemma RoomLeft(slots: seq<Slot>)
    requires TableOk(slots)
    ensures FindFree(slots) < |slots| <==> |Files(slots)| < 32
  {
    UsedOfTable(slots);
    hide TableOk, Files, FindFree, UsedNames, Distinct, Elements;
    DistinctSize(UsedNames(slots));
    forall name ensures name in Files(slots) <==> name in Elements(UsedNames(slots)) {
      FileNamed(slots, name);
      InElements(UsedNames(slots), name);
    }
    SameKeys(Files(slots), Elements(UsedNames(slots)));
  }

  lemma UsedOfTable(slots: seq<Slot>)
    requires TableOk(slots)
    ensures Distinct(UsedNames(slots)) && |UsedNames(slots)| <= |slots| == MAX_FILES
    ensures FindFree(slots) <= |slots| && (|UsedNames(slots)| == |slots| <==> FindFree(slots) == |slots|)
  {
    hide UsedNames, FindFree;
    UsedNamesDistinct(slots);
  }

  lemma FileNamed(slots: seq<Slot>, name: seq<byte>)
    requires TableOk(slots)
    ensures name in Files(slots) <==> name in UsedNames(slots)
  {
    hide TableOk, Files;
    UsedNamesElements(slots, name);
    FilesAt(slots, name);
    if name in UsedNames(slots) {
      var s :| s in slots && s.used && s.name == name;
      var i :| 0 <= i < |slots| && slots[i] == s;
      SlotFound(slots, i);
    }
  }
}
