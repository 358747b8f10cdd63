/** What typing a line does, and the round trip of write and cat. */
module ShellLaws {
  import opened Bits
  import opened Memory
  import opened Strings
  import opened HeapSpec
  import opened RamFsSpec
  import opened RamFsLaws
  import opened ShellSpec

  function Type(s: Shell, keys: seq<byte>): (r: Shell)
    requires |s.line| < CMD_BUFFER_SIZE
    ensures |r.line| < CMD_BUFFER_SIZE
    decreases |keys|
  {
    if keys == [] then s else Type(HandleChar(s, keys[0]), keys[1..])
  }

  lemma {:induction false} TypeConcat(s: Shell, a: seq<byte>, b: seq<byte>)
    requires |s.line| < CMD_BUFFER_SIZE
    ensures Type(s, a + b) == Type(Type(s, a), b)
    decreases |a|
  {
    if a == [] {
      assert a + b == b;
    } else {
      assert (a + b)[1..] == a[1..] + b;
      TypeConcat(HandleChar(s, a[0]), a[1..], b);
    }
  }

  // ----- Line editing -----

  predicate Ordinary(c: byte) {
    c != NEWLINE && c != BACKSPACE && c != 0
  }

  /** The line that a sequence of keys without newline leaves: each backspace removes the last
      character that was kept, and nothing is kept beyond 127. */
  function Edit(keys: seq<byte>): (line: seq<byte>)
    ensures |line| <= 127
  {
    if keys == [] then []
    else
      var before, c := Edit(keys[..|keys| - 1]), keys[|keys| - 1];
      if c == BACKSPACE then (if before == [] then [] else before[..|before| - 1])
      else if |before| < CMD_BUFFER_SIZE - 1 then before + [c]
      else before
  }

  lemma {:induction false} TypeEdits(s: Shell, keys: seq<byte>)
    requires s.line == [] && NEWLINE !in keys
    ensures Type(s, keys).line == Edit(keys) && Type(s, keys).fs == s.fs
    decreases |keys|
  {
    if keys != [] {
      var before, c := keys[..|keys| - 1], keys[|keys| - 1];
      assert keys == before + [c];
      TypeEdits(s, before);
      TypeConcat(s, before, [c]);
      assert [c][1..] == [];
      assert Type(Type(s, before), [c]) == HandleChar(Type(s, before), c);
    }
  }

  lemma {:induction false} EditKeepsOut(keys: seq<byte>, c: byte)
    requires c !in keys
    ensures c !in Edit(keys)
  {
    if keys != [] { EditKeepsOut(keys[..|keys| - 1], c); }
  }

  /** For any keystrokes without NUL, the line executed at a newline is the edit of the keys
      since the last newline. */
  lemma ExecutedLine(s: Shell, before: seq<byte>, keys: seq<byte>)
    requires |s.line| < CMD_BUFFER_SIZE && NEWLINE !in keys && 0 !in keys
    ensures var t := Type(s, before + [NEWLINE]); var r := Type(s, before + [NEWLINE] + keys + [NEWLINE]);
      && t.line == [] && r.line == []
      && r.fs == Execute(t.fs, Edit(keys)).0
      && r.out == Type(t, keys).out + [Put(NEWLINE)] + Execute(t.fs, Edit(keys)).1
  {
    var t := Type(s, before + [NEWLINE]);
    TypeConcat(s, before, [NEWLINE]);
    TypeOne(Type(s, before), NEWLINE);
    TypeConcat(s, before + [NEWLINE], keys + [NEWLINE]);
    assert before + [NEWLINE] + keys + [NEWLINE] == (before + [NEWLINE]) + (keys + [NEWLINE]);
    TypeConcat(t, keys, [NEWLINE]);
    TypeEdits(t, keys);
    TypeOne(Type(t, keys), NEWLINE);
    EditKeepsOut(keys, 0);
    WholeString(Edit(keys));
  }

  lemma TypeOne(s: Shell, c: byte)
    requires |s.line| < CMD_BUFFER_SIZE
    ensures Type(s, [c]) == HandleChar(s, c)
  {
    assert [c][1..] == [];
  }

  lemma WholeString(s: seq<byte>)
    requires 0 !in s
    ensures CStr(s) == s
  {
    var _ := CStr(s);
  }

  /** A character typed below the limit and erased at once leaves no trace, whatever is typed
      before and after. */
  lemma {:induction false} BackspaceUndoes(a: seq<byte>, c: byte, b: seq<byte>)
    requires Ordinary(c) && |Edit(a)| < 127
    ensures Edit(a + [c, 8] + b) == Edit(a + b)
  {
    var keys := a + [c, BACKSPACE];
    if b == [] {
      assert keys[..|keys| - 1] == a + [c] && (a + [c])[..|a|] == a && a + b == a && keys + b == keys;
    } else {
      var b', d := b[..|b| - 1], b[|b| - 1];
      BackspaceUndoes(a, c, b');
      assert (keys + b)[..|keys + b| - 1] == keys + b' && (a + b)[..|a + b| - 1] == a + b';
    }
  }

  /** At the limit it does leave one: the character is dropped, the backspace is not. */
  lemma BackspaceAtLimit(a: seq<byte>, c: byte)
    requires Ordinary(c) && |Edit(a)| == 127
    ensures Edit(a + [c, 8]) == Edit(a)[..126]
  {
    var keys := a + [c, BACKSPACE];
    assert keys[..|keys| - 1] == a + [c] && (a + [c])[..|a|] == a;
  }

  /** Ordinary keys within the limit are the line. */
  lemma {:induction false} EditPlain(keys: seq<byte>)
    requires |keys| < CMD_BUFFER_SIZE && forall i :: 0 <= i < |keys| ==> Ordinary(keys[i])
    ensures Edit(keys) == keys
  {
    if keys != [] {
      EditPlain(keys[..|keys| - 1]);
      assert keys == keys[..|keys| - 1] + [keys[|keys| - 1]];
    }
  }

  // ----- Splitting -----

  lemma {:induction false} WordThenSpace(word: seq<byte>, rest: seq<byte>)
    requires SPACE !in word
    ensures WordLength(word + [SPACE] + rest) == |word|
  {
    var line := word + [SPACE] + rest;
    var k := WordLength(line);
    assert line[|word|] == SPACE;
    assert forall i :: 0 <= i < |word| ==> line[i] == word[i];
  }

  /** Splitting `word rest` gives back both parts. */
  lemma SplitJoined(word: seq<byte>, rest: seq<byte>)
    requires SPACE !in word && (rest == [] || rest[0] != SPACE)
    ensures FirstWord(word + [SPACE] + rest) == word
    ensures Arguments(word + [SPACE] + rest) == rest
  {
    var line := word + [SPACE] + rest;
    WordThenSpace(word, rest);
    assert line[|word|..] == [SPACE] + rest;
    assert ([SPACE] + rest)[1..] == rest;
    assert DropSpaces([SPACE] + rest) == DropSpaces(rest);
  }

  // ----- write, then cat -----

  predicate GoodName(name: seq<byte>) {
    && name != [] && |name| < MAX_NAME && SPACE !in name
    && forall i :: 0 <= i < |name| ==> Ordinary(name[i])
  }

  predicate GoodText(text: seq<byte>) {
    (text == [] || text[0] != SPACE) && forall i :: 0 <= i < |text| ==> Ordinary(text[i])
  }

  /** The keys of a text. */
  function Ascii(s: string): seq<byte>
    requires forall i :: 0 <= i < |s| ==> s[i] as int < 128
  {
    seq(|s|, i requires 0 <= i < |s| => s[i] as int)
  }

  function WriteLine(name: seq<byte>, text: seq<byte>): seq<byte> {
    Ascii("write ") + (name + Ascii(" ") + text)
  }

  function CatLine(name: seq<byte>): seq<byte> {
    Ascii("cat ") + name
  }

  lemma WriteKeys(name: seq<byte>, text: seq<byte>)
    ensures WriteLine(name, text) == WRITE + [SPACE] + (name + [SPACE] + text)
  {
    assert Ascii(" ") == [SPACE] && Ascii("write ") == WRITE + [SPACE];
  }

  lemma CatKeys(name: seq<byte>)
    ensures CatLine(name) == CAT + [SPACE] + name
  {
    assert Ascii("cat ") == CAT + [SPACE];
  }

  lemma ExecuteWrite(fs: Fs, name: seq<byte>, text: seq<byte>)
    requires GoodName(name) && GoodText(text) && |WriteLine(name, text)| < CMD_BUFFER_SIZE
    ensures var (r, result) := RamFsSpec.Write(fs, name, text);
      Execute(fs, WriteLine(name, text)) == (r, WriteMessage(name, text, result) + PROMPT)
  {
    WriteKeys(name, text);
    assert (name + [SPACE] + text)[0] == name[0] != SPACE;
    SplitJoined(WRITE, name + [SPACE] + text);
    SplitJoined(name, text);
  }

  lemma ExecuteCat(fs: Fs, name: seq<byte>)
    requires GoodName(name)
    ensures Execute(fs, CatLine(name)) == (fs, Cat(fs, name) + PROMPT)
  {
    CatKeys(name);
    assert name[0] != SPACE;
    SplitJoined(CAT, name);
  }

  /** Typing `write N T` and then `cat N` prints exactly T and a newline. */
  lemma WriteThenCat(s: Shell, name: seq<byte>, text: seq<byte>, lo: nat, hi: nat)
    requires s.line == [] && FsInv(s.fs, lo, hi) && GoodName(name) && GoodText(text)
    requires |WriteLine(name, text)| < CMD_BUFFER_SIZE && |CatLine(name)| < CMD_BUFFER_SIZE
    requires RamFsSpec.Write(s.fs, name, text).1 == 0
    ensures var t := Type(s, WriteLine(name, text) + [NEWLINE]);
      && t.line == [] && name in Files(t.fs.slots) && Files(t.fs.slots)[name] == text
      && Type(t, CatLine(name) + [NEWLINE]).out ==
           Type(t, CatLine(name)).out + [Put(NEWLINE)] + Puts(text) + [Put(NEWLINE)] + PROMPT
  {
    hide RamFsSpec.Write, Execute, FsInv, Files, Type, Edit;
    var t := Type(s, WriteLine(name, text) + [NEWLINE]);
    WriteTyped(s, name, text, lo, hi);
    CatTyped(t, name, text);
  }

  lemma WriteTyped(s: Shell, name: seq<byte>, text: seq<byte>, lo: nat, hi: nat)
    requires s.line == [] && FsInv(s.fs, lo, hi) && GoodName(name) && GoodText(text)
    requires |WriteLine(name, text)| < CMD_BUFFER_SIZE && RamFsSpec.Write(s.fs, name, text).1 == 0
    ensures var t := Type(s, WriteLine(name, text) + [NEWLINE]);
      t.line == [] && name in Files(t.fs.slots) && Files(t.fs.slots)[name] == text
  {
    hide RamFsSpec.Write, Execute, FsInv, Files, Type, Edit;
    LineExecuted(s, WriteLine(name, text));
    ExecuteWrite(s.fs, name, text);
    NameIsString(name);
    WriteRefines(s.fs, name, text, lo, hi);
  }

  lemma CatTyped(t: Shell, name: seq<byte>, text: seq<byte>)
    requires t.line == [] && GoodName(name) && GoodText(text) && |CatLine(name)| < CMD_BUFFER_SIZE
    requires name in Files(t.fs.slots) && Files(t.fs.slots)[name] == text
    ensures Type(t, CatLine(name) + [NEWLINE]).out ==
      Type(t, CatLine(name)).out + [Put(NEWLINE)] + Puts(text) + [Put(NEWLINE)] + PROMPT
  {
    hide Execute, Files, Type, Edit, ShellSpec.Cat;
    LineExecuted(t, CatLine(name));
    ExecuteCat(t.fs, name);
    CatPrints(t.fs, name, text);
  }

  lemma NameIsString(name: seq<byte>)
    requires forall i :: 0 <= i < |name| ==> Ordinary(name[i])
    ensures 0 !in name && NEWLINE !in name && BACKSPACE !in name
  {
  }

  lemma CatPrints(fs: Fs, name: seq<byte>, text: seq<byte>)
    requires GoodName(name) && GoodText(text) && name in Files(fs.slots) && Files(fs.slots)[name] == text
    ensures Cat(fs, name) == Puts(text) + [Put(NEWLINE)]
  {
    FilesAt(fs.slots, name);
  }

  /** Typing a line of ordinary characters and a newline executes that line. */
  lemma LineExecuted(s: Shell, line: seq<byte>)
    requires s.line == [] && |line| < CMD_BUFFER_SIZE && forall i :: 0 <= i < |line| ==> Ordinary(line[i])
    ensures var r := Type(s, line + [NEWLINE]);
      && r.line == [] && r.fs == Execute(s.fs, line).0
      && r.out == Type(s, line).out + [Put(NEWLINE)] + Execute(s.fs, line).1
  {
    NameIsString(line);
    TypeConcat(s, line, [NEWLINE]);
    TypeEdits(s, line);
    EditPlain(line);
    TypeOne(Type(s, line), NEWLINE);
    WholeString(line);
  }
}
