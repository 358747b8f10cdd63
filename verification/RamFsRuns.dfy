/** Whole runs of the file system beside the other users of the heap: the last successful
    write is what is read, nobody else's memory is touched, and nothing leaks. */
module RamFsRuns {
  import opened Collections
  import opened Bits
  import opened Memory
  import opened HeapSpec
  import opened HeapLaws
  import HeapRuns
  import opened HeapOwners
  import opened RamFsSpec
  import opened RamFsLaws

  datatype Op =
    | WriteFile(name: seq<byte>, bytes: seq<byte>)
    | DeleteFile(name: seq<byte>)
    | OtherMalloc(n: nat)
    | OtherFree(p: nat)

  function Step(fs: Fs, op: Op): Fs
    requires op.WriteFile? ==> |op.bytes| < WORD
    requires op.OtherMalloc? ==> op.n < WORD
  {
    match op
    case WriteFile(name, bytes) => Write(fs, name, bytes).0
    case DeleteFile(name) => Delete(fs, name).0
    case OtherMalloc(n) => Fs(fs.slots, Kmalloc(fs.heap, n).0)
    case OtherFree(p) => Fs(fs.slots, Kfree(fs.heap, p))
  }

  /** Names are C strings, sizes do not wrap, and the rest of the kernel frees only live blocks
      that belong to no file. */
  ghost predicate Legal(fs: Fs, op: Op) {
    match op
    case WriteFile(name, bytes) => 0 !in name && |bytes| <= WORD - 8
    case DeleteFile(name) => true
    case OtherMalloc(n) => n < WORD
    case OtherFree(p) => Freeable(fs.heap, p) && (p == 0 || !OwnedByFile(fs, p))
  }

  ghost predicate OwnedByFile(fs: Fs, p: nat) {
    p != 0 && exists s :: s in fs.slots && s.data == p
  }

  /** The live blocks that belong to no file. */
  ghost function Others(fs: Fs): set<Block> {
    set b | b in Live(fs.heap) && !OwnedByFile(fs, b.Payload())
  }

  // ----- One step -----

  lemma StepInv(fs: Fs, op: Op, lo: nat, hi: nat)
    requires FsInv(fs, lo, hi) && Legal(fs, op)
    ensures FsInv(Step(fs, op), lo, hi)
  {
    hide Kmalloc, Kfree, WellFormed, OwnsBlock, TableOk;
    match op
    case WriteFile(name, bytes) => WriteInv(fs, name, bytes, lo, hi);
    case DeleteFile(name) => DeleteInv(fs, name, lo, hi);
    case OtherMalloc(n) =>
      var _ := KmallocStep(fs.heap, n, lo, hi);
      forall i | 0 <= i < |fs.slots| && fs.slots[i].data != 0
        ensures OwnsBlock(Kmalloc(fs.heap, n).0, fs.slots[i].data, |fs.slots[i].bytes|)
      {
        KmallocOwns(fs.heap, n, fs.slots[i].data, |fs.slots[i].bytes|, lo, hi);
      }
    case OtherFree(p) =>
      HeapRuns.StepWellFormed(fs.heap, HeapRuns.Free(p), lo, hi);
      forall i | 0 <= i < |fs.slots| && fs.slots[i].data != 0
        ensures OwnsBlock(Kfree(fs.heap, p), fs.slots[i].data, |fs.slots[i].bytes|)
      {
        KfreeOwns(fs.heap, p, fs.slots[i].data, |fs.slots[i].bytes|, lo, hi);
      }
  }

  /** Replacing the data of slot `i` by `p`, once `p` is live and the old data is freed, leaves
      everybody else's blocks as they were. */
  lemma ReplaceOthers(slots: seq<Slot>, slots': seq<Slot>, heap: seq<Block>, heap': seq<Block>, i: nat,
                      gained: set<Block>)
    requires TableOk(slots) && i < |slots| == |slots'|
    requires forall j :: 0 <= j < |slots| && j != i ==> slots'[j].data == slots[j].data
    requires forall b :: b in gained ==> b.Payload() == slots'[i].data && b !in Live(heap)
    requires slots'[i].data != 0 ==> forall b :: b in Live(heap) ==> b.Payload() != slots'[i].data
    requires Live(heap') == (Live(heap) + gained) - (set b | b in Live(heap) && b.Payload() == slots[i].data)
    ensures Others(Fs(slots', heap')) == Others(Fs(slots, heap))
  {
    forall b ensures b in Others(Fs(slots', heap')) <==> b in Others(Fs(slots, heap)) {
      OwnedIndex(slots, heap, b.Payload());
      OwnedIndex(slots', heap', b.Payload());
    }
  }

  lemma OwnedIndex(slots: seq<Slot>, heap: seq<Block>, p: nat)
    ensures OwnedByFile(Fs(slots, heap), p) <==> p != 0 && exists j :: 0 <= j < |slots| && slots[j].data == p
  {
    if OwnedByFile(Fs(slots, heap), p) {
      var s :| s in slots && s.data == p;
      var j :| 0 <= j < |slots| && slots[j] == s;
    }
  }

  /** What freeing a slot's data does to the live blocks. */
  lemma FreedLive(heap: seq<Block>, p: nat, lo: nat, hi: nat)
    requires WellFormed(heap, lo, hi) && Freeable(heap, p)
    ensures Live(Kfree(heap, p)) == Live(heap) - (set b | b in Live(heap) && b.Payload() == p)
  {
    hide Kfree;
    if p == 0 {
      NullFree(heap);
    } else {
      var f :| f in Live(heap) && f.Payload() == p;
      KfreeStep(heap, f, lo, hi);
      forall b | b in Live(heap) && b.Payload() == p ensures b == f {
        LiveUnique(heap, b, f, lo, hi);
      }
    }
  }

  lemma NullFree(heap: seq<Block>)
    ensures Kfree(heap, 0) == heap
  {
  }

  /** Writing a file, whether it succeeds or not, leaves everybody else's blocks alone. */
  lemma WriteOthers(fs: Fs, name: seq<byte>, bytes: seq<byte>, lo: nat, hi: nat)
    requires FsInv(fs, lo, hi) && 0 !in name && |bytes| <= WORD - 8
    ensures Others(Write(fs, name, bytes).0) == Others(fs)
  {
    hide Kmalloc, Kfree, WellFormed, OwnsBlock, TableOk, Others, Live, Freeable;
    var i := Target(fs.slots, name);
    if |name| < MAX_NAME && i < |fs.slots| {
      ClaimOk(fs.slots, name);
      var slots := Claim(fs.slots, name);
      SameOwned(fs, Fs(slots, fs.heap));
      ReplaceNothing(fs.slots, slots, fs.heap);
      if bytes == [] {
        ReplaceData(slots, fs.heap, fs.heap, i, 0, bytes, {}, lo, hi);
      } else {
        AllocOwned(Fs(slots, fs.heap), |bytes|, lo, hi);
        var b := KmallocStep(fs.heap, |bytes|, lo, hi);
        var (h, p) := Kmalloc(fs.heap, |bytes|);
        if p != 0 {
          NewPayload(fs.heap, h, b, lo, hi);
          ReplaceData(slots, fs.heap, h, i, p, bytes, {b}, lo, hi);
        } else {
          assert h == fs.heap;
        }
      }
    }
  }

  lemma NewPayload(heap: seq<Block>, h: seq<Block>, b: Block, lo: nat, hi: nat)
    requires WellFormed(h, lo, hi) && b !in Live(heap) && Live(h) == Live(heap) + {b}
    ensures forall c :: c in Live(heap) ==> c.Payload() != b.Payload()
  {
    forall c | c in Live(heap) ensures c.Payload() != b.Payload() {
      assert c in Live(h) && b in Live(h);
      if c.addr == b.addr { LiveUnique(h, c, b, lo, hi); }
    }
  }

  lemma ReplaceNothing(slots: seq<Slot>, slots': seq<Slot>, heap: seq<Block>)
    requires |slots| == |slots'| && forall j :: 0 <= j < |slots| ==> slots'[j].data == slots[j].data
    ensures Others(Fs(slots', heap)) == Others(Fs(slots, heap))
  {
    forall b ensures b in Others(Fs(slots', heap)) <==> b in Others(Fs(slots, heap)) {
      OwnedIndex(slots, heap, b.Payload());
      OwnedIndex(slots', heap, b.Payload());
    }
  }

  lemma ReplaceData(slots: seq<Slot>, heap: seq<Block>, h: seq<Block>, i: nat, p: nat, bytes: seq<byte>,
                    gained: set<Block>, lo: nat, hi: nat)
    requires TableOk(slots) && i < |slots| && WellFormed(h, lo, hi)
    requires Owned(Fs(slots, h)) && Owned(Fs(slots, heap))
    requires forall b :: b in gained ==> b.Payload() == p && b !in Live(heap)
    requires p != 0 ==> (forall b :: b in Live(heap) ==> b.Payload() != p) && p != slots[i].data
    requires Live(h) == Live(heap) + gained && (p == 0 ==> gained == {})
    ensures Others(Fs(slots[i := slots[i].(data := p, bytes := bytes)], Kfree(h, slots[i].data)))
      == Others(Fs(slots, heap))
  {
    hide Kfree, WellFormed, OwnsBlock, Others, TableOk;
    var d := slots[i].data;
    OwnedFreeable(h, d, |slots[i].bytes|);
    FreedLive(h, d, lo, hi);
    assert (set b | b in Live(h) && b.Payload() == d) == (set b | b in Live(heap) && b.Payload() == d) by {
      assert forall b :: b in gained ==> b.Payload() != d;
    }
    ReplaceOthers(slots, slots[i := slots[i].(data := p, bytes := bytes)], heap, Kfree(h, d), i, gained);
  }

  lemma DeleteOthers(fs: Fs, name: seq<byte>, lo: nat, hi: nat)
    requires FsInv(fs, lo, hi)
    ensures Others(Delete(fs, name).0) == Others(fs)
  {
    hide Kfree, WellFormed, OwnsBlock, TableOk, Others;
    var i := RamFsSpec.Find(fs.slots, name);
    if i < |fs.slots| {
      var d := fs.slots[i].data;
      OwnedFreeable(fs.heap, d, |fs.slots[i].bytes|);
      FreedLive(fs.heap, d, lo, hi);
      ReplaceOthers(fs.slots, Delete(fs, name).0.slots, fs.heap, Kfree(fs.heap, d), i, {});
    }
  }

  // ----- Nothing leaks -----

  function DeleteEach(fs: Fs, names: seq<seq<byte>>): Fs
    decreases |names|
  {
    if names == [] then fs else DeleteEach(Delete(fs, names[0]).0, names[1..])
  }

  lemma {:induction false} DeleteEachKeeps(fs: Fs, names: seq<seq<byte>>, lo: nat, hi: nat)
    requires FsInv(fs, lo, hi)
    ensures FsInv(DeleteEach(fs, names), lo, hi) && Others(DeleteEach(fs, names)) == Others(fs)
    ensures Files(DeleteEach(fs, names).slots) == Files(fs.slots) - Elements(names)
    decreases |names|
  {
    hide FsInv, Others, Files, Delete;
    if names != [] {
      DeleteInv(fs, names[0], lo, hi);
      DeleteOthers(fs, names[0], lo, hi);
      DeleteRefines(fs, names[0], lo, hi);
      DeleteEachKeeps(Delete(fs, names[0]).0, names[1..], lo, hi);
      assert names == [names[0]] + names[1..];
      assert Elements(names) == {names[0]} + Elements(names[1..]);
    }
  }

  lemma NoFilesNoBlocks(fs: Fs, lo: nat, hi: nat)
    requires FsInv(fs, lo, hi) && Files(fs.slots) == map[]
    ensures Others(fs) == Live(fs.heap)
  {
    forall s | s in fs.slots ensures s.data == 0 {
      var i :| 0 <= i < |fs.slots| && fs.slots[i] == s;
      assert SlotOk(s);
      if s.used {
        SlotFound(fs.slots, i);
        FilesAt(fs.slots, s.name);
      }
    }
  }

  /** Deleting every file, in any order, leaves exactly the other users' blocks live, so the
      heap list is the one those blocks determine. */
  lemma DeleteAllFrees(fs: Fs, names: seq<seq<byte>>, bs: seq<Block>, lo: nat, hi: nat)
    requires FsInv(fs, lo, hi) && Files(fs.slots).Keys <= Elements(names)
    requires WellFormed(bs, lo, hi) && Live(bs) == Others(fs)
    ensures DeleteEach(fs, names).heap == bs
  {
    hide Others, Files, TableOk, Owned;
    DeleteEachKeeps(fs, names, lo, hi);
    var r := DeleteEach(fs, names);
    assert Files(r.slots) == map[];
    NoFilesNoBlocks(r, lo, hi);
    Determined(r.heap, bs, lo, hi);
  }

  // ----- Runs -----

  ghost predicate Run(states: seq<Fs>, ops: seq<Op>) {
    && |states| == |ops| + 1
    && forall i :: 0 <= i < |ops| ==> Legal(states[i], ops[i]) && states[i + 1] == Step(states[i], ops[i])
  }

  lemma {:induction false} RunInv(states: seq<Fs>, ops: seq<Op>, i: nat, lo: nat, hi: nat)
    requires Run(states, ops) && FsInv(states[0], lo, hi) && i < |states|
    ensures FsInv(states[i], lo, hi)
  {
    hide FsInv, Step;
    if i > 0 {
      RunInv(states, ops, i - 1, lo, hi);
      assert Legal(states[i - 1], ops[i - 1]);
      StepInv(states[i - 1], ops[i - 1], lo, hi);
    }
  }

  /** A run of nothing but file operations, started without files and ended by deleting all
      of them, gives back the exact heap list it started from. */
  lemma NothingLeaks(states: seq<Fs>, ops: seq<Op>, names: seq<seq<byte>>, lo: nat, hi: nat)
    requires Run(states, ops) && FsInv(states[0], lo, hi) && Files(states[0].slots) == map[]
    requires forall i :: 0 <= i < |ops| ==> ops[i].WriteFile? || ops[i].DeleteFile?
    requires Files(states[|ops|].slots).Keys <= Elements(names)
    ensures DeleteEach(states[|ops|], names).heap == states[0].heap
  {
    hide Others, Files, TableOk, Owned, WellFormed, Step, Legal;
    OthersOverRun(states, ops, |ops|, lo, hi);
    RunInv(states, ops, |ops|, lo, hi);
    NoFilesNoBlocks(states[0], lo, hi);
    DeleteAllFrees(states[|ops|], names, states[0].heap, lo, hi);
  }

  lemma {:induction false} OthersOverRun(states: seq<Fs>, ops: seq<Op>, i: nat, lo: nat, hi: nat)
    requires Run(states, ops) && FsInv(states[0], lo, hi) && i < |states|
    requires forall j :: 0 <= j < |ops| ==> ops[j].WriteFile? || ops[j].DeleteFile?
    ensures Others(states[i]) == Others(states[0])
  {
    hide FsInv, Others, Step;
    if i > 0 {
      OthersOverRun(states, ops, i - 1, lo, hi);
      RunInv(states, ops, i - 1, lo, hi);
      assert Legal(states[i - 1], ops[i - 1]);
      FileOpOthers(states[i - 1], ops[i - 1], lo, hi);
    }
  }

  /** A file operation leaves everybody else's blocks alone. */
  lemma FileOpOthers(fs: Fs, op: Op, lo: nat, hi: nat)
    requires FsInv(fs, lo, hi) && Legal(fs, op) && (op.WriteFile? || op.DeleteFile?)
    ensures Others(Step(fs, op)) == Others(fs)
  {
    hide FsInv, Others, Write, Delete;
    if op.WriteFile? {
      WriteOthers(fs, op.name, op.bytes, lo, hi);
    } else {
      DeleteOthers(fs, op.name, lo, hi);
    }
  }

  /** The operation deletes this name or writes it with success. */
  predicate Replaces(fs: Fs, op: Op, name: seq<byte>)
    requires op.WriteFile? ==> |op.bytes| < WORD
  {
    || (op.DeleteFile? && op.name == name)
    || (op.WriteFile? && op.name == name && Write(fs, name, op.bytes).1 == 0)
  }

  /** Every other operation, a failed write of the same name included, keeps a file. */
  lemma StepKeepsFile(fs: Fs, op: Op, name: seq<byte>, lo: nat, hi: nat)
    requires FsInv(fs, lo, hi) && Legal(fs, op) && name in Files(fs.slots) && !Replaces(fs, op, name)
    ensures name in Files(Step(fs, op).slots) && Files(Step(fs, op).slots)[name] == Files(fs.slots)[name]
  {
    hide FsInv, Files, Write, Delete, Kmalloc, Kfree;
    match op
    case WriteFile(n, bytes) => WriteRefines(fs, n, bytes, lo, hi);
    case DeleteFile(n) => DeleteRefines(fs, n, lo, hi);
    case OtherMalloc(n) =>
    case OtherFree(p) =>
  }

  /** Over any run, what a file holds is what the last successful write put there, whatever
      happens in between short of deleting the file: other files, other users of the heap, and
      writes of the file itself that fail. */
  lemma {:induction false} LastWriteRead(states: seq<Fs>, ops: seq<Op>, i: nat, j: nat, lo: nat, hi: nat)
    requires Run(states, ops) && FsInv(states[0], lo, hi) && i < j < |states| && ops[i].WriteFile?
    requires Legal(states[i], ops[i]) && Write(states[i], ops[i].name, ops[i].bytes).1 == 0
    requires forall m :: i < m < j ==> !Replaces(states[m], ops[m], ops[i].name)
    ensures ops[i].name in Files(states[j].slots) && Files(states[j].slots)[ops[i].name] == ops[i].bytes
    decreases j
  {
    hide FsInv, Files, Write;
    RunInv(states, ops, j - 1, lo, hi);
    assert Legal(states[j - 1], ops[j - 1]) && states[j] == Step(states[j - 1], ops[j - 1]);
    if j == i + 1 {
      WriteRefines(states[i], ops[i].name, ops[i].bytes, lo, hi);
    } else {
      LastWriteRead(states, ops, i, j - 1, lo, hi);
      StepKeepsFile(states[j - 1], ops[j - 1], ops[i].name, lo, hi);
    }
  }
}
