/** What the user sees: the line on the screen, and the answer of each command to the keys typed. */
module ShellTyped {
  import opened Bits
  import opened Memory
  import opened Strings
  import opened HeapSpec
  import opened RamFsSpec
  import opened RamFsLaws
  import opened Decimal
  import opened ShellSpec
  import opened ShellLaws

  // ----- The line on the screen -----

  /** The characters that these outputs leave on the screen, one being erased by each erasure. */
  function Screen(out: seq<Output>): seq<byte> {
    if out == [] then []
    else
      var before := Screen(out[..|out| - 1]);
      match out[|out| - 1]
      case Put(c) => before + [c]
      case Erase => if before == [] then [] else before[..|before| - 1]
      case _ => before
  }

  /** Only characters are shown and erased, and none from before these outputs. */
  predicate OnlyEdits(out: seq<Output>) {
    out != [] ==>
      var before, last := out[..|out| - 1], out[|out| - 1];
      OnlyEdits(before) && (last.Put? || (last.Erase? && Screen(before) != []))
  }

  /** Since the prompt, the screen shows exactly the line in the buffer, whatever is typed: what is
      dropped at the limit is not echoed, and the prompt cannot be erased. */
  lemma {:induction false} ScreenShowsLine(s: Shell, keys: seq<byte>)
    requires s.line == [] && NEWLINE !in keys
    ensures var t := Type(s, keys);
      && s.out <= t.out && Screen(t.out[|s.out|..]) == t.line == Edit(keys)
      && OnlyEdits(t.out[|s.out|..])
    decreases |keys|
  {
    TypeEdits(s, keys);
    if keys == [] {
      assert Type(s, keys).out[|s.out|..] == [];
    } else {
      var before, c := keys[..|keys| - 1], keys[|keys| - 1];
      assert keys == before + [c];
      ScreenShowsLine(s, before);
      TypeConcat(s, before, [c]);
      var r := Type(s, before);
      TypeOne(r, c);
      OneKey(r, c, |s.out|);
    }
  }

  lemma OneKey(r: Shell, c: byte, k: nat)
    requires |r.line| < CMD_BUFFER_SIZE && c != NEWLINE && k <= |r.out|
    requires Screen(r.out[k..]) == r.line && OnlyEdits(r.out[k..])
    ensures var t := HandleChar(r, c);
      && r.out <= t.out && Screen(t.out[k..]) == t.line && OnlyEdits(t.out[k..])
  {
    hide Screen, OnlyEdits, Execute;
    assert r.out <= HandleChar(r, c).out;
    if c == BACKSPACE {
      if r.line != [] { OneMore(r.out, Erase, k); }
    } else {
      OneMore(r.out, Put(c), k);
    }
  }

  lemma OneMore(out: seq<Output>, o: Output, k: nat)
    requires k <= |out| && OnlyEdits(out[k..]) && (o.Put? || (o.Erase? && Screen(out[k..]) != []))
    ensures OnlyEdits((out + [o])[k..])
    ensures var shown := Screen(out[k..]);
      Screen((out + [o])[k..]) == if o.Put? then shown + [o.c] else shown[..|shown| - 1]
  {
    assert (out + [o])[k..] == out[k..] + [o];
    assert (out[k..] + [o])[..|out[k..]|] == out[k..];
  }

  // ----- Every command -----

  lemma TypedLine(s: Shell, line: seq<byte>)
    requires s.line == [] && |line| <= 127 && forall i :: 0 <= i < |line| ==> Ordinary(line[i])
    ensures var r := Type(s, line + [NEWLINE]);
      && r.line == [] && r.fs == Execute(s.fs, line).0
      && r.out == Type(s, line).out + [Put(10)] + Execute(s.fs, line).1
  {
    LineExecuted(s, line);
  }

  /** An empty line does nothing but prompt again, and a command that lacks its file name says how
      it is used. */
  lemma NothingToDo(fs: Fs)
    ensures Execute(fs, []) == (fs, [Message("\nshadestia> ")])
    ensures Execute(fs, Ascii("cat")) == (fs, [Message("Usage : cat <fichier>\n"), Message("\nshadestia> ")])
    ensures Execute(fs, Ascii("write")) ==
      (fs, [Message("Usage : write <fichier> <texte>\n"), Message("\nshadestia> ")])
    ensures Execute(fs, Ascii("rm")) == (fs, [Message("Usage : rm <fichier>\n"), Message("\nshadestia> ")])
  {
    hide Execute;
    assert Ascii("cat") == CAT && Ascii("write") == WRITE && Ascii("rm") == RM;
    Alone(fs, []);
    Alone(fs, CAT);
    Alone(fs, WRITE);
    Alone(fs, RM);
    assert Cat(fs, []) == [Message("Usage : cat <fichier>\n")];
    assert WriteFile(fs, []) == (fs, [Message("Usage : write <fichier> <texte>\n")]);
    assert Remove(fs, []) == (fs, [Message("Usage : rm <fichier>\n")]);
    OneMessage("Usage : cat <fichier>\n");
    OneMessage("Usage : write <fichier> <texte>\n");
    OneMessage("Usage : rm <fichier>\n");
  }

  lemma OneMessage(text: string)
    ensures [Message(text)] + PROMPT == [Message(text), Message("\nshadestia> ")]
  {
  }

  lemma Alone(fs: Fs, word: seq<byte>)
    requires SPACE !in word && |word| < WORD
    ensures Execute(fs, word) == if word == [] then (fs, PROMPT) else Dispatch(fs, word, [])
  {
    OnlyWord(word);
  }

  lemma OnlyWord(word: seq<byte>)
    requires SPACE !in word
    ensures FirstWord(word) == word && Arguments(word) == []
  {
    var k := WordLength(word);
    assert k == |word|;
  }

  /** `echo T` prints T and a newline. */
  lemma EchoPrints(s: Shell, text: seq<byte>)
    requires s.line == [] && GoodText(text) && |Ascii("echo ") + text| <= 127
    ensures var line := Ascii("echo ") + text; var r := Type(s, line + [NEWLINE]);
      && r.fs == s.fs
      && r.out == Type(s, line).out + [Put(10)] + Puts(text) + [Message("\n"), Message("\nshadestia> ")]
  {
    hide Type;
    var line := Ascii("echo ") + text;
    assert Ascii("echo ") == ECHO + [SPACE];
    SplitJoined(ECHO, text);
    TypedLine(s, line);
    assert Execute(s.fs, line) == (s.fs, Puts(text) + [Message("\n")] + PROMPT);
  }

  /** `write N T` says how many characters it has saved, in decimal, or that it failed. */
  lemma WriteAnswers(s: Shell, name: seq<byte>, text: seq<byte>)
    requires s.line == [] && GoodName(name) && GoodText(text) && |WriteLine(name, text)| <= 127
    ensures var line := WriteLine(name, text); var (fs, result) := RamFsSpec.Write(s.fs, name, text);
      var r := Type(s, line + [NEWLINE]);
      && r.fs == fs
      && r.out == Type(s, line).out + [Put(10)]
           + (if result == 0 then
                [Message("Ecrit : ")] + Puts(name) + [Message(" (")] + Puts(Digits(|text|)) + [Message(" octets)\n")]
              else [Message("Echec de l'ecriture (table de fichiers pleine ou tas sature).\n")])
           + [Message("\nshadestia> ")]
  {
    hide Type, Execute, RamFsSpec.Write;
    WriteOrdinary(name, text);
    TypedLine(s, WriteLine(name, text));
    ExecuteWrite(s.fs, name, text);
  }

  lemma WriteOrdinary(name: seq<byte>, text: seq<byte>)
    requires GoodName(name) && GoodText(text)
    ensures forall i :: 0 <= i < |WriteLine(name, text)| ==> Ordinary(WriteLine(name, text)[i])
  {
  }

  // ----- rm -----

  function RmLine(name: seq<byte>): seq<byte> {
    Ascii("rm ") + name
  }

  lemma ExecuteRm(fs: Fs, name: seq<byte>)
    requires GoodName(name)
    ensures Execute(fs, RmLine(name)) == (Remove(fs, name).0, Remove(fs, name).1 + PROMPT)
  {
    assert Ascii("rm ") == RM + [SPACE];
    assert name[0] != SPACE;
    SplitJoined(RM, name);
  }

  /** Typing `rm N` removes exactly that file and says whether there was one. A `cat N` typed next
      reports it missing. */
  lemma RmThenCat(s: Shell, name: seq<byte>, lo: nat, hi: nat)
    requires s.line == [] && FsInv(s.fs, lo, hi) && GoodName(name)
    ensures var line := RmLine(name); var t := Type(s, line + [NEWLINE]);
      && t.line == [] && FsInv(t.fs, lo, hi) && Files(t.fs.slots) == Files(s.fs.slots) - {name}
      && t.out == Type(s, line).out + [Put(10)]
           + [Message(if name in Files(s.fs.slots) then "Supprime : " else "Fichier introuvable : ")]
           + Puts(name) + [Message("\n"), Message("\nshadestia> ")]
      && Type(t, CatLine(name) + [NEWLINE]).out ==
           Type(t, CatLine(name)).out + [Put(10)]
           + [Message("Fichier introuvable : ")] + Puts(name) + [Message("\n"), Message("\nshadestia> ")]
  {
    hide Type, Execute, FsInv, Files, RamFsSpec.Delete, ShellSpec.Cat;
    TypedLine(s, RmLine(name));
    ExecuteRm(s.fs, name);
    DeleteInv(s.fs, name, lo, hi);
    DeleteRefines(s.fs, name, lo, hi);
    var t := Type(s, RmLine(name) + [NEWLINE]);
    TypedLine(t, CatLine(name));
    ExecuteCat(t.fs, name);
    CatMissing(t.fs, name);
  }

  lemma CatMissing(fs: Fs, name: seq<byte>)
    requires name != [] && name !in Files(fs.slots)
    ensures Cat(fs, name) == [Message("Fichier introuvable : ")] + Puts(name) + [Message("\n")]
  {
    FilesAt(fs.slots, name);
  }

  /** `cat N` of a file that is there prints its contents, completed to end in a newline. */
  lemma CatShows(fs: Fs, name: seq<byte>) returns (shown: seq<byte>)
    requires name != [] && name in Files(fs.slots)
    ensures var bytes := Files(fs.slots)[name];
      && Cat(fs, name) == Puts(shown) && bytes <= shown && |shown| > 0 && shown[|shown| - 1] == 10
      && |shown| <= |bytes| + 1 && (|shown| == |bytes| <==> |bytes| > 0 && bytes[|bytes| - 1] == 10)
  {
    FilesAt(fs.slots, name);
    var bytes := Files(fs.slots)[name];
    shown := if bytes == [] || bytes[|bytes| - 1] != NEWLINE then bytes + [NEWLINE] else bytes;
  }

  // ----- Splitting any line -----

  /** What `split_command` makes of any line: a word without spaces, then `k` spaces, then arguments
      that do not start with one. Without a space there are no arguments. */
  lemma SplitMeaning(line: seq<byte>) returns (k: nat)
    ensures var word, args := FirstWord(line), Arguments(line);
      && line == word + Blanks(k) + args && 32 !in word
      && (args == [] || args[0] != 32) && (k == 0 ==> args == [])
  {
    var n := WordLength(line);
    assert line[n..] != [] ==> line[n..][0] == SPACE;
    hide WordLength, DropSpaces, Blanks;
    k := Dropped(line[n..]);
    assert line == line[..n] + line[n..];
  }

  function Blanks(k: nat): seq<byte> {
    seq(k, _ => 32)
  }

  lemma {:induction false} Dropped(line: seq<byte>) returns (k: nat)
    ensures line == Blanks(k) + DropSpaces(line) && (k > 0 <==> line != [] && line[0] == 32)
    ensures DropSpaces(line) == [] || DropSpaces(line)[0] != 32
  {
    k := 0;
    if line != [] && line[0] == SPACE {
      k := Dropped(line[1..]);
      k := k + 1;
      assert Blanks(k) == [32] + Blanks(k - 1);
      assert line == [line[0]] + line[1..];
    } else {
      assert Blanks(0) + line == line;
    }
  }
}
