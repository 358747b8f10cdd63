/** The shell of shell.c as a function of the keys typed: line editing, splitting, and the
    commands that use the file system. */
module ShellSpec {
  import opened Bits
  import opened Memory
  import opened Strings
  import opened HeapSpec
  import opened RamFsSpec
  import opened RamFsLaws
  import opened Decimal
  import AllocTest

  const CMD_BUFFER_SIZE: nat := 128
  const SPACE: byte := 32
  const NEWLINE: byte := 10
  const BACKSPACE: byte := 8

  const CAT: seq<byte> := [99, 97, 116]
  const WRITE: seq<byte> := [119, 114, 105, 116, 101]
  const RM: seq<byte> := [114, 109]
  const ECHO: seq<byte> := [101, 99, 104, 111]
  const ALLOCTEST: seq<byte> := [97, 108, 108, 111, 99, 116, 101, 115, 116]

  /** What the terminal is told: a character, a fixed message, one character erased, or the
      output of a command that is not modelled. */
  datatype Output = Put(c: byte) | Message(text: string) | Erase | Unmodelled(word: seq<byte>)

  datatype Shell = Shell(line: seq<byte>, fs: Fs, out: seq<Output>)

  function Puts(s: seq<byte>): seq<Output> {
    seq(|s|, i requires 0 <= i < |s| => Put(s[i]))
  }

  const PROMPT: seq<Output> := [Message("\nshadestia> ")]

  // ----- split_command -----

  /** Length of the first word. */
  function WordLength(line: seq<byte>): (k: nat)
    ensures k <= |line| && (k < |line| ==> line[k] == SPACE)
    ensures forall i :: 0 <= i < k ==> line[i] != SPACE
  {
    if line == [] || line[0] == SPACE then 0 else 1 + WordLength(line[1..])
  }

  function DropSpaces(line: seq<byte>): seq<byte> {
    if line == [] || line[0] != SPACE then line else DropSpaces(line[1..])
  }

  function FirstWord(line: seq<byte>): seq<byte> {
    line[..WordLength(line)]
  }

  function Arguments(line: seq<byte>): seq<byte> {
    DropSpaces(line[WordLength(line)..])
  }

  // ----- Commands -----

  function Cat(fs: Fs, name: seq<byte>): seq<Output> {
    var i := RamFsSpec.Find(fs.slots, name);
    if name == [] then [Message("Usage : cat <fichier>\n")]
    else if i == |fs.slots| then [Message("Fichier introuvable : ")] + Puts(name) + [Message("\n")]
    else
      var bytes := fs.slots[i].bytes;
      Puts(bytes) + (if bytes == [] || bytes[|bytes| - 1] != NEWLINE then [Put(NEWLINE)] else [])
  }

  function WriteFile(fs: Fs, args: seq<byte>): (Fs, seq<Output>)
    requires |args| < WORD
  {
    var name, content := FirstWord(args), Arguments(args);
    if name == [] then (fs, [Message("Usage : write <fichier> <texte>\n")])
    else
      ContentShorter(args);
      var (r, result) := RamFsSpec.Write(fs, name, content);
      (r, WriteMessage(name, content, result))
  }

  function WriteMessage(name: seq<byte>, content: seq<byte>, result: int): seq<Output> {
    if result == 0 then
      [Message("Ecrit : ")] + Puts(name) + [Message(" (")] + Puts(Digits(|content|)) + [Message(" octets)\n")]
    else [Message("Echec de l'ecriture (table de fichiers pleine ou tas sature).\n")]
  }

  function Remove(fs: Fs, name: seq<byte>): (Fs, seq<Output>) {
    if name == [] then (fs, [Message("Usage : rm <fichier>\n")])
    else
      var (r, result) := RamFsSpec.Delete(fs, name);
      (r, [Message(if result == 0 then "Supprime : " else "Fichier introuvable : ")] + Puts(name) + [Message("\n")])
  }

  lemma {:induction false} DropShorter(line: seq<byte>)
    ensures |DropSpaces(line)| <= |line|
    ensures DropSpaces(line) == line[|line| - |DropSpaces(line)|..]
    ensures DropSpaces(line) == [] || DropSpaces(line)[0] != SPACE
  {
    if line != [] && line[0] == SPACE { DropShorter(line[1..]); }
  }

  lemma ContentShorter(line: seq<byte>)
    ensures |Arguments(line)| <= |line|
  {
    DropShorter(line[WordLength(line)..]);
  }

  /** `shell_execute` on the line as a C string. What a command other than echo, cat, write and
      rm prints is one opaque output. */
  function Execute(fs: Fs, line: seq<byte>): (Fs, seq<Output>)
    requires |line| < WORD
  {
    var word, args := FirstWord(line), Arguments(line);
    ContentShorter(line);
    if word == [] then (fs, PROMPT) else Dispatch(fs, word, args)
  }

  /** Of all other words only `alloctest` is taken to use the heap. */
  function OtherCommand(fs: Fs, word: seq<byte>): (Fs, seq<Output>) {
    (if word == ALLOCTEST then Fs(fs.slots, AllocTest.Run(fs.heap)) else fs, [Unmodelled(word)])
  }

  function Dispatch(fs: Fs, word: seq<byte>, args: seq<byte>): (Fs, seq<Output>)
    requires |args| < WORD
  {
    if word == ECHO then (fs, Puts(args) + [Message("\n")] + PROMPT)
    else if word == CAT then (fs, Cat(fs, args) + PROMPT)
    else if word == WRITE then (WriteFile(fs, args).0, WriteFile(fs, args).1 + PROMPT)
    else if word == RM then (Remove(fs, args).0, Remove(fs, args).1 + PROMPT)
    else OtherCommand(fs, word)
  }

  /** `shell_handle_char`. */
  function HandleChar(s: Shell, c: byte): Shell
    requires |s.line| < CMD_BUFFER_SIZE
  {
    if c == NEWLINE then
      var (fs, out) := Execute(s.fs, CStr(s.line));
      Shell([], fs, s.out + [Put(NEWLINE)] + out)
    else if c == BACKSPACE then
      if s.line == [] then s else Shell(s.line[..|s.line| - 1], s.fs, s.out + [Erase])
    else if |s.line| < CMD_BUFFER_SIZE - 1 then Shell(s.line + [c], s.fs, s.out + [Put(c)])
    else s
  }
}
