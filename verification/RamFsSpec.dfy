/** The file table of ramfs.c as a value. `bytes` is what the memory behind `data` holds. */
module RamFsSpec {
  import opened Bits
  import opened Memory
  import opened HeapSpec
  import opened HeapOwners
  import HeapRuns

  const MAX_FILES: nat := 32    // RAMFS_MAX_FILES
  const MAX_NAME: nat := 32     // RAMFS_MAX_NAME, with the final NUL

  datatype Slot = Slot(name: seq<byte>, data: nat, bytes: seq<byte>, used: bool)

  datatype Fs = Fs(slots: seq<Slot>, heap: seq<Block>)

  // ----- The operations -----

  /** `ramfs_find`: the first slot in use with this name, or the number of slots. */
  function Find(slots: seq<Slot>, name: seq<byte>): (i: nat)
    ensures i <= |slots| && (i < |slots| ==> slots[i].used && slots[i].name == name)
    ensures forall j :: 0 <= j < i ==> !(slots[j].used && slots[j].name == name)
  {
    if slots == [] || (slots[0].used && slots[0].name == name) then 0 else 1 + Find(slots[1..], name)
  }

  /** `ramfs_find_free`: the first slot not in use, or the number of slots. */
  function FindFree(slots: seq<Slot>): (i: nat)
    ensures i <= |slots| && (i < |slots| ==> !slots[i].used)
    ensures forall j :: 0 <= j < i ==> slots[j].used
  {
    if slots == [] || !slots[0].used then 0 else 1 + FindFree(slots[1..])
  }

  /** The slot `ramfs_write` will use, or the number of slots when the table is full. */
  function Target(slots: seq<Slot>, name: seq<byte>): (i: nat)
    ensures i <= |slots|
  {
    var i := Find(slots, name);
    if i < |slots| then i else FindFree(slots)
  }

  /** The table once the slot carries the name: a new name starts out empty. */
  function Claim(slots: seq<Slot>, name: seq<byte>): seq<Slot>
    requires Target(slots, name) < |slots|
  {
    var i := Target(slots, name);
    if slots[i].used then slots else slots[i := slots[i].(name := name, used := true)]
  }

  /** `ramfs_write` on a ready file system: the new state and 0 or -1. */
  function Write(fs: Fs, name: seq<byte>, bytes: seq<byte>): (Fs, int)
    requires |bytes| < WORD
  {
    var i := Target(fs.slots, name);
    if |name| >= MAX_NAME || i == |fs.slots| then (fs, -1 as int)
    else
      var slots := Claim(fs.slots, name);
      var (h, p) := if bytes == [] then (fs.heap, 0) else Kmalloc(fs.heap, |bytes|);
      if bytes != [] && p == 0 then (Fs(slots, h), -1 as int)
      else (Fs(slots[i := slots[i].(data := p, bytes := bytes)], Kfree(h, slots[i].data)), 0 as int)
  }

  /** `ramfs_delete`. */
  function Delete(fs: Fs, name: seq<byte>): (Fs, int) {
    var i := Find(fs.slots, name);
    if i == |fs.slots| then (fs, -1 as int)
    else (Fs(fs.slots[i := fs.slots[i].(data := 0, bytes := [], used := false)], Kfree(fs.heap, fs.slots[i].data)),
      0 as int)
  }

  // ----- What the table means -----

  ghost function Names(slots: seq<Slot>): set<seq<byte>> {
    set s | s in slots && s.used :: s.name
  }

  /** The file system as a map from names to contents. */
  ghost function Files(slots: seq<Slot>): map<seq<byte>, seq<byte>> {
    map name | name in Names(slots) && Find(slots, name) < |slots| :: slots[Find(slots, name)].bytes
  }

  // ----- The invariant -----

  ghost predicate SlotOk(s: Slot) {
    && (s.used ==> |s.name| < MAX_NAME && 0 !in s.name)
    && (!s.used ==> s.data == 0)
    && (s.data == 0 <==> s.bytes == [])
  }

  ghost predicate TableOk(slots: seq<Slot>) {
    && |slots| == MAX_FILES
    && (forall i :: 0 <= i < |slots| ==> SlotOk(slots[i]))
    && (forall i, j :: 0 <= i < j < |slots| && slots[i].used && slots[j].used ==> slots[i].name != slots[j].name)
    && (forall i, j :: 0 <= i < j < |slots| && slots[i].data != 0 ==> slots[i].data != slots[j].data)
  }

  /** Each non-empty file owns one live block that is large enough. */
  ghost predicate Owned(fs: Fs) {
    forall i :: 0 <= i < |fs.slots| && fs.slots[i].data != 0 ==>
      OwnsBlock(fs.heap, fs.slots[i].data, |fs.slots[i].bytes|)
  }

  ghost predicate FsInv(fs: Fs, lo: nat, hi: nat) {
    TableOk(fs.slots) && WellFormed(fs.heap, lo, hi) && Owned(fs)
  }
}
