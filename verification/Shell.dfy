/** The shell of shell.c on memory: keys are stored in the command buffer, and lines are split
    by overwriting it in place. Every operation is proved against ShellSpec. */
module Shell {
  import opened Bits
  import opened Memory
  import opened Strings
  import opened HeapSpec
  import opened HeapLaws
  import HeapRuns
  import opened HeapOwners
  import opened Heap
  import opened HeapPayloads
  import opened RamFsSpec
  import opened RamFsLaws
  import opened RamFs
  import opened Decimal
  import opened ShellSpec
  import AllocTest

  // ----- Strings in memory -----

  lemma SuffixString(s: seq<byte>, k: nat)
    requires Terminated(s) && k <= |CStr(s)|
    ensures k < |s| && Terminated(s[k..]) && CStr(s[k..]) == CStr(s)[k..]
  {
    CStrEnds(s);
    var t, n := s[k..], |CStr(s)| - k;
    assert t[n] == 0;
    CStrIs(t, n);
    assert t[..n] == s[k..|CStr(s)|];
  }

  lemma CutString(s: seq<byte>, t: seq<byte>, k: nat)
    requires Terminated(s) && k < |CStr(s)| && t == s[k := 0]
    ensures Terminated(t) && CStr(t) == CStr(s)[..k]
    ensures Terminated(t[k + 1..]) && CStr(t[k + 1..]) == CStr(s)[k + 1..]
  {
    hide Terminated;
    var _ := CStr(s);
    CutFront(s, t, k);
    SuffixString(s, k + 1);
    assert t[k + 1..] == s[k + 1..];
  }

  lemma CutFront(s: seq<byte>, t: seq<byte>, k: nat)
    requires k < |CStr(s)| && t == s[k := 0]
    ensures Terminated(t) && CStr(t) == CStr(s)[..k]
  {
    var _ := CStr(s);
    assert t[k] == 0;
    CStrIs(t, k);
  }

  lemma CharAt(s: seq<byte>, k: nat)
    requires Terminated(s) && k <= |CStr(s)|
    ensures |CStr(s)| < |s| && (s[k] == 0 <==> k == |CStr(s)|) && (k < |CStr(s)| ==> s[k] == CStr(s)[k])
  {
    CStrEnds(s);
    var _ := CStr(s);
  }

  lemma {:induction false} WordLengthIs(line: seq<byte>, k: nat)
    requires k <= |line| && (forall i :: 0 <= i < k ==> line[i] != SPACE) && (k < |line| ==> line[k] == SPACE)
    ensures WordLength(line) == k
  {
    var _ := WordLength(line);
  }

  /** `split_command`: cuts the line at its first space and returns where the arguments start. */
  method SplitCommand(ram: array<byte>, line: nat) returns (args: nat)
    requires line < ram.Length && Terminated(ram[line..])
    modifies ram
    ensures var l := old(CStr(ram[line..]));
      && line <= args <= line + |l| && args < ram.Length
      && Terminated(ram[line..]) && CStr(ram[line..]) == FirstWord(l)
      && Terminated(ram[args..]) && CStr(ram[args..]) == Arguments(l) && args + |Arguments(l)| == line + |l|
      && SameOutside(old(ram[..]), ram[..], line, line + |l|)
  {
    hide CStr, WordLength, Terminated, DropSpaces, FirstWord, Arguments, SameOutside;
    ghost var s := ram[line..];
    ghost var l := CStr(s);
    CStrEnds(s);
    var p := FindSpace(ram, line);
    if ram[p] == SPACE {
      args := CutAt(ram, line, p, l);
    } else {
      NoSpace(s, l, p - line);
      OneByte(ram[..], ram[..], line, line, line + |l|);
      assert ram[line..][p - line..] == ram[p..];
      args := p;
    }
  }

  /** The line is cut at the space at `p`. */
  method CutAt(ram: array<byte>, line: nat, p: nat, ghost l: seq<byte>) returns (args: nat)
    requires line <= p < ram.Length && Terminated(ram[line..]) && CStr(ram[line..]) == l
    requires p - line == WordLength(l) < |l| && l[p - line] == SPACE
    modifies ram
    ensures line <= args <= line + |l| && args < ram.Length
    ensures Terminated(ram[line..]) && CStr(ram[line..]) == FirstWord(l)
    ensures Terminated(ram[args..]) && CStr(ram[args..]) == Arguments(l) && args + |Arguments(l)| == line + |l|
    ensures SameOutside(old(ram[..]), ram[..], line, line + |l|)
  {
    hide CStr, WordLength, Terminated, DropSpaces, FirstWord, Arguments, SameOutside;
    ghost var m, s, k := ram[..], ram[line..], p - line;
    CStrEnds(s);
    DropOne(l, k);
    ram[p] := 0;
    OneByte(m, ram[..], p, line, line + |l|);
    ghost var t := ram[line..];
    assert t == s[k := 0];
    CutString(s, t, k);
    assert t[k + 1..] == ram[p + 1..];
    args := SkipSpaces(ram, p + 1, l[k + 1..]);
  }

  lemma OneByte(m: seq<byte>, n: seq<byte>, p: nat, lo: nat, hi: nat)
    requires |n| == |m| && forall x :: 0 <= x < |m| && x != p ==> n[x] == m[x]
    requires lo <= p < hi || n == m
    ensures SameOutside(m, n, lo, hi)
  {
  }

  /** The first loop of `split_command`: stops at the first space or at the end. */
  method FindSpace(ram: array<byte>, line: nat) returns (p: nat)
    requires line < ram.Length && Terminated(ram[line..])
    ensures var l := CStr(ram[line..]);
      && p == line + WordLength(l) && p < ram.Length
      && (ram[p] == SPACE <==> WordLength(l) < |l|)
  {
    hide CStr, WordLength, Terminated;
    p := line;
    ghost var s := ram[line..];
    ghost var l := CStr(s);
    CharAt(s, 0);
    while ram[p] != 0 && ram[p] != SPACE
      invariant line <= p <= line + |l| && |l| < |s|
      invariant forall i :: 0 <= i < p - line ==> l[i] != SPACE
      invariant ram[p] == s[p - line] && (s[p - line] == 0 <==> p - line == |l|)
      invariant p - line < |l| ==> s[p - line] == l[p - line]
      decreases line + |l| - p
    {
      p := p + 1;
      CharAt(s, p - line);
    }
    WordLengthIs(l, p - line);
  }

  lemma DropOne(l: seq<byte>, k: nat)
    requires k < |l| && WordLength(l) == k && l[k] == SPACE
    ensures Arguments(l) == DropSpaces(l[k + 1..]) && FirstWord(l) == l[..k]
  {
    assert l[k..][1..] == l[k + 1..];
  }

  lemma NoSpace(s: seq<byte>, l: seq<byte>, k: nat)
    requires Terminated(s) && l == CStr(s) && k == |l| == WordLength(l)
    ensures k < |s| && Terminated(s[k..]) && CStr(s[k..]) == Arguments(l) && FirstWord(l) == l
  {
    SuffixString(s, k);
  }

  /** The second loop of `split_command`. */
  method SkipSpaces(ram: array<byte>, start: nat, ghost rest: seq<byte>) returns (p: nat)
    requires start < ram.Length && Terminated(ram[start..]) && CStr(ram[start..]) == rest
    ensures start <= p && p + |DropSpaces(rest)| == start + |rest| && p < ram.Length
    ensures Terminated(ram[p..]) && CStr(ram[p..]) == DropSpaces(rest)
  {
    hide CStr, Terminated;
    p := start;
    ghost var left := rest;
    CharAt(ram[p..], 0);
    while ram[p] == SPACE
      invariant p < ram.Length && Terminated(ram[p..]) && CStr(ram[p..]) == left
      invariant start <= p && p + |left| == start + |rest| && DropSpaces(left) == DropSpaces(rest)
      invariant ram[p] == 0 <==> left == []
      invariant left != [] ==> left[0] == ram[p]
      decreases |left|
    {
      SuffixString(ram[p..], 1);
      assert ram[p..][1..] == ram[p + 1..];
      p := p + 1;
      left := left[1..];
      CharAt(ram[p..], 0);
    }
  }

  class Shell {
    const fs: RamFs
    const cmdBuffer: nat
    var cmdLen: nat
    var out: seq<Output>

    ghost function Abs(): ShellSpec.Shell
      requires cmdBuffer + cmdLen <= fs.heap.ram.Length && |fs.contents| == fs.files.Length
      reads this, fs, fs.heap, fs.files, fs.heap.ram
    {
      ShellSpec.Shell(fs.heap.ram[cmdBuffer..cmdBuffer + cmdLen], fs.Abs(), out)
    }

    ghost predicate Valid()
      reads this, fs, fs.heap, fs.heap.ram, fs.files
    {
      && fs.Valid() && fs.ready && cmdLen < CMD_BUFFER_SIZE && |fs.contents| == fs.files.Length
      && cmdBuffer + CMD_BUFFER_SIZE <= fs.heap.heapBaseAddr <= fs.heap.ram.Length
    }

    /** The command buffer is static memory, below the heap. */
    constructor (fs: RamFs, cmdBuffer: nat)
      requires fs.Valid() && fs.ready && cmdBuffer + CMD_BUFFER_SIZE <= fs.heap.heapBaseAddr
      ensures Valid() && this.fs == fs && cmdLen == 0 && out == []
    {
      this.fs := fs;
      this.cmdBuffer := cmdBuffer;
      cmdLen, out := 0, [];
    }

    /** `terminal_writestring` on a string in memory. */
    method WriteString(s: seq<byte>)
      requires Terminated(s)
      modifies this`out
      ensures out == old(out) + Puts(CStr(s))
    {
      hide CStr, Terminated;
      var i := 0;
      CharAt(s, 0);
      while s[i] != 0
        invariant 0 <= i <= |CStr(s)| < |s| && (s[i] == 0 <==> i == |CStr(s)|)
        invariant i < |CStr(s)| ==> s[i] == CStr(s)[i]
        invariant out == old(out) + Puts(CStr(s)[..i])
        decreases |CStr(s)| - i
      {
        out := out + [Put(s[i])];
        assert Puts(CStr(s)[..i + 1]) == Puts(CStr(s)[..i]) + [Put(s[i])];
        i := i + 1;
        CharAt(s, i);
      }
      assert CStr(s)[..i] == CStr(s);
    }

    /** A message about a file, and its name. */
    method Report(message: string, filename: nat)
      requires filename < fs.heap.ram.Length && Terminated(fs.heap.ram[filename..])
      modifies this`out
      ensures out == old(out) + ([Message(message)] + Puts(CStr(fs.heap.ram[filename..])) + [Message("\n")])
    {
      hide CStr, Terminated, Puts;
      out := out + [Message(message)];
      WriteString(fs.heap.ram[filename..]);
      out := out + [Message("\n")];
    }

    /** One comparison of the command chain of `shell_execute`. */
    method Is(word: seq<byte>) returns (same: bool)
      requires Valid() && Terminated(fs.heap.ram[cmdBuffer..]) && 0 !in word
      ensures same <==> CStr(fs.heap.ram[cmdBuffer..]) == word
    {
      hide CStr, Terminated;
      Literal(word);
      var order := Strcmp(fs.heap.ram[cmdBuffer..], word + [0]);
      same := order == 0;
    }

    /** `cmd_cat`. */
    method Cat(filename: nat)
      requires Valid() && filename < fs.heap.ram.Length && Terminated(fs.heap.ram[filename..])
      modifies this`out
      ensures out == old(out) + ShellSpec.Cat(fs.Abs(), CStr(fs.heap.ram[filename..]))
    {
      hide RamFs.Valid, Heap.Valid, CStr, Terminated, Files, RamFsSpec.Find, Holds, Stored, FsInv, ContentStored,
        WellFormed, SlotsOf, FileOk, Puts;
      var ram := fs.heap.ram;
      ghost var name := CStr(ram[filename..]);
      CharAt(ram[filename..], 0);
      if ram[filename] == 0 {
        out := out + [Message("Usage : cat <fichier>\n")];
        return;
      }
      var result, data, size := fs.Read(ram[filename..]);
      FilesAt(fs.Abs().slots, name);
      if result != 0 {
        Report("Fichier introuvable : ", filename);
        return;
      }
      PrintBytes(data, size, Files(fs.Abs().slots)[name]);
    }

    /** The loop of `cmd_cat`, and the newline after it. */
    method PrintBytes(data: nat, size: nat, ghost bytes: seq<byte>)
      requires size == |bytes| && (size > 0 ==> Holds(fs.heap.ram[..], data, bytes))
      modifies this`out
      ensures out == old(out) + (Puts(bytes)
        + (if bytes == [] || bytes[|bytes| - 1] != NEWLINE then [Put(NEWLINE)] else []))
    {
      var ram := fs.heap.ram;
      var i := 0;
      while i < size
        invariant 0 <= i <= size && out == old(out) + Puts(bytes[..i])
      {
        assert ram[..][data..data + size][i] == ram[data + i];
        out := out + [Put(ram[data + i])];
        assert Puts(bytes[..i + 1]) == Puts(bytes[..i]) + [Put(bytes[i])];
        i := i + 1;
      }
      assert bytes[..i] == bytes;
      if size > 0 { assert ram[..][data..data + size][size - 1] == ram[data + size - 1]; }
      if size == 0 || ram[data + size - 1] != NEWLINE {
        out := out + [Put(NEWLINE)];
      }
    }

    /** `cmd_rm`. */
    method Remove(filename: nat)
      requires Valid() && filename < fs.heap.ram.Length && Terminated(fs.heap.ram[filename..])
      requires InBuffer(filename, |CStr(fs.heap.ram[filename..])|)
      modifies this`out, fs`contents, fs.files, fs.heap`blocks, fs.heap.ram
      ensures Valid()
      ensures var r := ShellSpec.Remove(old(fs.Abs()), old(CStr(fs.heap.ram[filename..])));
        fs.Abs() == r.0 && out == old(out) + r.1
    {
      hide CStr, Terminated, RamFsSpec.Delete, KeepsLive, Stored, FsInv, ContentStored, WellFormed, FileOk;
      var ram := fs.heap.ram;
      CharAt(ram[filename..], 0);
      if ram[filename] == 0 {
        out := out + [Message("Usage : rm <fichier>\n")];
        return;
      }
      ghost var m, heap, lo, hi := ram[..], fs.heap.blocks, fs.heap.heapBaseAddr, fs.heap.Limit();
      var result := fs.Delete(ram[filename..]);
      StringKept(m, ram[..], filename, heap, lo, hi);
      DeleteResult(old(fs.Abs()), CStr(m[filename..]));
      hide RamFs.Valid, Heap.Valid;
      if result == 0 {
        Report("Supprime : ", filename);
      } else {
        Report("Fichier introuvable : ", filename);
      }
    }

    ghost predicate InBuffer(a: nat, n: nat)
      reads this
    {
      cmdBuffer <= a && a + n < cmdBuffer + CMD_BUFFER_SIZE
    }

    /** `cmd_write`. */
    method WriteFile(args: nat)
      requires Valid() && args < fs.heap.ram.Length && Terminated(fs.heap.ram[args..])
      requires InBuffer(args, |CStr(fs.heap.ram[args..])|)
      modifies this`out, fs`contents, fs.files, fs.heap`blocks, fs.heap.ram
      ensures Valid()
      ensures |old(CStr(fs.heap.ram[args..]))| < WORD
      ensures var r := ShellSpec.WriteFile(old(fs.Abs()), old(CStr(fs.heap.ram[args..])));
        fs.Abs() == r.0 && out == old(out) + r.1
    {
      hide CStr, Terminated, RamFsSpec.Write, KeepsLive, Stored, FsInv, ContentStored, WellFormed, FileOk, Arguments,
        Digits, SameOutside;
      var ram := fs.heap.ram;
      ghost var m0, heap, lo, hi := ram[..], fs.heap.blocks, fs.heap.heapBaseAddr, fs.heap.Limit();
      ghost var l := CStr(ram[args..]);
      ContentShorter(l);
      var content := SplitCommand(ram, args);
      OutsideKeeps(m0, ram[..], fs.Abs(), args, |l|, lo, hi);
      ghost var m := ram[..];
      CharAt(ram[args..], 0);
      if ram[args] == 0 {
        out := out + [Message("Usage : write <fichier> <texte>\n")];
        return;
      }
      SaveText(args, content, FirstWord(l), Arguments(l));
    }

    /** The call of `ramfs_write` in `cmd_write`, and the message about it. */
    method SaveText(args: nat, content: nat, ghost name: seq<byte>, ghost text: seq<byte>)
      requires Valid() && args < fs.heap.ram.Length && content < fs.heap.ram.Length
      requires Terminated(fs.heap.ram[args..]) && CStr(fs.heap.ram[args..]) == name
      requires Terminated(fs.heap.ram[content..]) && CStr(fs.heap.ram[content..]) == text
      requires InBuffer(args, |name|) && InBuffer(content, |text|)
      modifies this`out, fs`contents, fs.files, fs.heap`blocks, fs.heap.ram
      ensures Valid() && |text| < WORD
      ensures var r := RamFsSpec.Write(old(fs.Abs()), name, text);
        fs.Abs() == r.0 && out == old(out) + WriteMessage(name, text, r.1)
    {
      hide CStr, Terminated, RamFsSpec.Write, KeepsLive, Stored, FsInv, ContentStored, WellFormed, FileOk, SlotsOf,
        Digits, SameOutside, Readable;
      var ram := fs.heap.ram;
      ghost var m, heap, lo, hi := ram[..], fs.heap.blocks, fs.heap.heapBaseAddr, fs.heap.Limit();
      var len := Strlen(ram[content..]);
      StringBytes(m, content);
      BufferReadable(heap, content, len, lo, hi);
      var result := fs.Write(ram[args..], content, len);
      StringKept(m, ram[..], args, heap, lo, hi);
      StringKept(m, ram[..], content, heap, lo, hi);
      hide RamFs.Valid, Heap.Valid;
      if result == 0 {
        PrintSaved(args, content);
      } else {
        out := out + [Message("Echec de l'ecriture (table de fichiers pleine ou tas sature).\n")];
      }
    }

    method PrintSaved(args: nat, content: nat)
      requires args < fs.heap.ram.Length && content < fs.heap.ram.Length <= WORD
      requires Terminated(fs.heap.ram[args..]) && Terminated(fs.heap.ram[content..])
      modifies this`out
      ensures out == old(out) + WriteMessage(CStr(fs.heap.ram[args..]), CStr(fs.heap.ram[content..]), 0)
    {
      hide CStr, Terminated, Digits;
      var ram := fs.heap.ram;
      out := out + [Message("Ecrit : ")];
      WriteString(ram[args..]);
      out := out + [Message(" (")];
      CStrEnds(ram[content..]);
      var n := Strlen(ram[content..]);
      var digits := TerminalWriteUint(n);
      out := out + Puts(digits);
      out := out + [Message(" octets)\n")];
    }

    /** `shell_execute` on the command buffer. */
    method Execute()
      requires Valid() && Terminated(fs.heap.ram[cmdBuffer..])
      requires |CStr(fs.heap.ram[cmdBuffer..])| < CMD_BUFFER_SIZE
      modifies this`out, fs`contents, fs.files, fs.heap`blocks, fs.heap.ram
      ensures Valid()
      ensures var r := ShellSpec.Execute(old(fs.Abs()), old(CStr(fs.heap.ram[cmdBuffer..])));
        fs.Abs() == r.0 && out == old(out) + r.1
    {
      hide CStr, Terminated, Stored, FsInv, ContentStored, WellFormed, FileOk, SlotsOf, Arguments, SameOutside,
        ShellSpec.WriteFile, ShellSpec.Remove, ShellSpec.Cat;
      var ram := fs.heap.ram;
      ghost var m, l, lo, hi := ram[..], CStr(ram[cmdBuffer..]), fs.heap.heapBaseAddr, fs.heap.Limit();
      ContentShorter(l);
      var args := SplitCommand(ram, cmdBuffer);
      OutsideKeeps(m, ram[..], fs.Abs(), cmdBuffer, |l|, lo, hi);
      CharAt(ram[cmdBuffer..], 0);
      if ram[cmdBuffer] == 0 {
        out := out + PROMPT;
        return;
      }
      Choose(args, FirstWord(l), Arguments(l));
    }

    /** The command chain of `shell_execute`, for a line that is not empty. */
    method Choose(args: nat, ghost word: seq<byte>, ghost arguments: seq<byte>)
      requires Valid() && args < fs.heap.ram.Length && word != []
      requires Terminated(fs.heap.ram[cmdBuffer..]) && CStr(fs.heap.ram[cmdBuffer..]) == word
      requires Terminated(fs.heap.ram[args..]) && CStr(fs.heap.ram[args..]) == arguments
      requires InBuffer(args, |arguments|)
      modifies this`out, fs`contents, fs.files, fs.heap`blocks, fs.heap.ram
      ensures Valid() && |arguments| < WORD
      ensures var r := Dispatch(old(fs.Abs()), word, arguments); fs.Abs() == r.0 && out == old(out) + r.1
    {
      hide CStr, Terminated, Stored, FsInv, ContentStored, WellFormed, FileOk, SlotsOf, RamFs.Valid, Heap.Valid,
        ShellSpec.WriteFile, ShellSpec.Remove, ShellSpec.Cat;
      var ram := fs.heap.ram;
      var isEcho := Is(ECHO);
      var isCat := Is(CAT);
      var isWrite := Is(WRITE);
      var isRm := Is(RM);
      if isEcho {
        WriteString(ram[args..]);
        out := out + [Message("\n")];
      } else if isCat {
        Cat(args);
      } else if isWrite {
        WriteFile(args);
      } else if isRm {
        Remove(args);
      } else {
        OtherCommand(word);
        return;
      }
      out := out + PROMPT;
    }

    /** The rest of the command chain. */
    method OtherCommand(ghost word: seq<byte>)
      requires Valid() && Terminated(fs.heap.ram[cmdBuffer..]) && CStr(fs.heap.ram[cmdBuffer..]) == word
      modifies this`out, fs.heap`blocks, fs.heap.ram
      ensures Valid()
      ensures var r := ShellSpec.OtherCommand(old(fs.Abs()), word); fs.Abs() == r.0 && out == old(out) + r.1
    {
      hide CStr, Terminated, Stored, FsInv, ContentStored, WellFormed, FileOk, SlotsOf, KeepsLive, AllocTest.Run;
      ghost var m, lo, hi := fs.heap.ram[..], fs.heap.heapBaseAddr, fs.heap.Limit();
      var isAllocTest := Is(ALLOCTEST);
      out := out + [Unmodelled(CStr(fs.heap.ram[cmdBuffer..]))];
      if isAllocTest {
        AllocTest.CmdAllocTest(fs.heap);
        AllocTestKeeps(m, fs.heap.ram[..], old(fs.Abs()), lo, hi);
      }
    }

    /** A byte stored behind the line. */
    method Append(c: byte)
      requires Valid()
      modifies fs.heap.ram
      ensures Valid() && fs.Abs() == old(fs.Abs())
      ensures fs.heap.ram[cmdBuffer..cmdBuffer + cmdLen + 1] == old(fs.heap.ram[cmdBuffer..cmdBuffer + cmdLen]) + [c]
    {
      hide Stored, FsInv, ContentStored, WellFormed, FileOk, SlotsOf;
      var ram := fs.heap.ram;
      ghost var m, line := ram[..], ram[cmdBuffer..cmdBuffer + cmdLen];
      var end := cmdBuffer + cmdLen;
      ram[end] := c;
      OutsideKeeps(m, ram[..], fs.Abs(), end, 1, fs.heap.heapBaseAddr, fs.heap.Limit());
      assert ram[cmdBuffer..end] == line;
    }

    /** `shell_handle_char`. */
    method HandleChar(c: byte)
      requires Valid()
      modifies this`out, this`cmdLen, fs`contents, fs.files, fs.heap`blocks, fs.heap.ram
      ensures Valid() && Abs() == ShellSpec.HandleChar(old(Abs()), c)
    {
      hide CStr, Terminated, SlotsOf, ShellSpec.Execute, RamFs.Valid, Heap.Valid;
      var ram := fs.heap.ram;
      if c == NEWLINE {
        out := out + [Put(NEWLINE)];
        Append(0);
        LineStored(ram[cmdBuffer..], cmdLen, ram[cmdBuffer..cmdBuffer + cmdLen + 1]);
        Execute();
        cmdLen := 0;
      } else if c == BACKSPACE {
        if cmdLen > 0 {
          assert ram[cmdBuffer..cmdBuffer + cmdLen][..cmdLen - 1] == ram[cmdBuffer..cmdBuffer + cmdLen - 1];
          cmdLen := cmdLen - 1;
          out := out + [Erase];
        }
      } else {
        if cmdLen < CMD_BUFFER_SIZE - 1 {
          Append(c);
          cmdLen := cmdLen + 1;
          out := out + [Put(c)];
        }
      }
    }
  }

  lemma LineStored(s: seq<byte>, n: nat, line: seq<byte>)
    requires n < |s| && line == s[..n + 1] && line[n] == 0
    ensures Terminated(s) && CStr(s) == CStr(line[..n]) && |CStr(s)| <= n
  {
    assert line[..n] == s[..n];
    EndLine(s, n);
  }

  /** `alloctest` disturbs no file. */
  lemma AllocTestKeeps(m: seq<byte>, n: seq<byte>, fs: Fs, lo: nat, hi: nat)
    requires FsInv(fs, lo, hi) && hi <= |m| && ContentStored(m, fs.slots) && KeepsLive(m, n, fs.heap, lo, hi)
    ensures FsInv(Fs(fs.slots, AllocTest.Run(fs.heap)), lo, hi) && ContentStored(n, fs.slots)
  {
    hide AllocTest.Run, WellFormed, TableOk, Holds, Live, AllocTest.ThreeAllocs;
    AllocTest.LeaksUnlessAllOrNone(fs.heap, lo, hi);
    forall i | 0 <= i < |fs.slots| && fs.slots[i].data != 0
      ensures OwnsBlock(AllocTest.Run(fs.heap), fs.slots[i].data, |fs.slots[i].bytes|)
      ensures Holds(n, fs.slots[i].data, fs.slots[i].bytes)
    {
      var s := fs.slots[i];
      OwnedGuarded(m, n, fs.heap, s.data, |s.bytes|, lo, hi);
      HoldsFrame(m, n, s.data, s.bytes);
    }
  }

  lemma OwnedGuarded(m: seq<byte>, n: seq<byte>, heap: seq<Block>, p: nat, k: nat, lo: nat, hi: nat)
    requires WellFormed(heap, lo, hi) && hi <= |m| && OwnsBlock(heap, p, k) && KeepsLive(m, n, heap, lo, hi)
    ensures SameBytes(m, n, p, k)
  {
    OwnedInside(heap, p, k, lo, hi);
    forall x | p <= x < p + k ensures n[x] == m[x] {
      assert Guarded(heap, lo, hi, x);
    }
  }

  /** A NUL stored after the line makes it a C string. */
  lemma EndLine(s: seq<byte>, n: nat)
    requires n < |s| && s[n] == 0
    ensures Terminated(s) && CStr(s) == CStr(s[..n]) && |CStr(s)| <= n
  {
    var t := CStr(s[..n]);
    assert forall i :: 0 <= i < |t| ==> s[i] == s[..n][i];
    CStrIs(s, |t|);
  }

  lemma Literal(word: seq<byte>)
    requires 0 !in word
    ensures Terminated(word + [0]) && CStr(word + [0]) == word
  {
    assert (word + [0])[|word|] == 0;
    CStrIs(word + [0], |word|);
  }

  lemma DeleteResult(fs: Fs, name: seq<byte>)
    ensures RamFsSpec.Delete(fs, name).1 == 0 || RamFsSpec.Delete(fs, name).1 == -1
  {
  }

  /** Strings below the heap survive file operations. */
  lemma StringKept(m: seq<byte>, n: seq<byte>, a: nat, heap: seq<Block>, lo: nat, hi: nat)
    requires KeepsLive(m, n, heap, lo, hi) && a < |m| && Terminated(m[a..]) && a + |CStr(m[a..])| < lo <= |m|
    ensures |n| == |m| && Terminated(n[a..]) && CStr(n[a..]) == CStr(m[a..])
  {
    var s, t := m[a..], n[a..];
    CStrEnds(s);
    var k := |CStr(s)|;
    forall i | 0 <= i <= k ensures t[i] == s[i] {
      assert Guarded(heap, lo, hi, a + i);
    }
    CStrIs(t, k);
    assert t[..k] == s[..k];
  }

  lemma StringBytes(m: seq<byte>, a: nat)
    requires a < |m| && Terminated(m[a..])
    ensures var k := |CStr(m[a..])|; a + k < |m| && m[a..a + k] == CStr(m[a..])
  {
    CStrEnds(m[a..]);
    assert m[a..][..|CStr(m[a..])|] == m[a..a + |CStr(m[a..])|];
  }

  lemma BufferReadable(heap: seq<Block>, a: nat, n: nat, lo: nat, hi: nat)
    requires a + n <= lo
    ensures Readable(heap, a, n, lo, hi)
  {
  }

  /** Stores below the heap keep heap and files. */
  lemma OutsideKeeps(m: seq<byte>, n: seq<byte>, fs: Fs, a: nat, k: nat, lo: nat, hi: nat)
    requires FsInv(fs, lo, hi) && hi <= |m| && a + k <= lo && SameOutside(m, n, a, a + k)
    requires Stored(m, fs.heap) && ContentStored(m, fs.slots)
    ensures Stored(n, fs.heap) && ContentStored(n, fs.slots)
  {
    hide HeaderAt, Holds, TableOk, OwnsBlock, Live;
    forall i | 0 <= i < |fs.heap| ensures HeaderAt(n, fs.heap[i], NextAddr(fs.heap, i)) {
      TilesOrder(fs.heap, lo, hi, i, i);
      assert HeaderAt(m, fs.heap[i], NextAddr(fs.heap, i));
      HeaderFrame(m, n, a, a + k, fs.heap[i], NextAddr(fs.heap, i));
    }
    forall i | 0 <= i < |fs.slots| && fs.slots[i].data != 0 ensures Holds(n, fs.slots[i].data, fs.slots[i].bytes) {
      OwnedInside(fs.heap, fs.slots[i].data, |fs.slots[i].bytes|, lo, hi);
      SameRange(m, n, a, k, fs.slots[i].data, |fs.slots[i].bytes|);
      HoldsFrame(m, n, fs.slots[i].data, fs.slots[i].bytes);
    }
  }

  lemma OwnedInside(heap: seq<Block>, p: nat, n: nat, lo: nat, hi: nat)
    requires WellFormed(heap, lo, hi) && OwnsBlock(heap, p, n)
    ensures lo <= p && p + n <= hi
  {
    var b :| b in Live(heap) && b.Payload() == p && b.size >= n;
    HeapRuns.BlocksDisjoint(heap, b, lo, hi);
  }

  lemma SameRange(m: seq<byte>, n: seq<byte>, a: nat, k: nat, p: nat, len: nat)
    requires SameOutside(m, n, a, a + k) && a + k <= p && p + len <= |m|
    ensures SameBytes(m, n, p, len)
  {
  }
}
