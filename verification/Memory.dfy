/** Byte-addressed physical memory. Words are 32 bits, little-endian, as on the i386. */
module Memory {
  import opened Bits

  type byte = x: int | 0 <= x < 256

  function LittleEndian(b0: int, b1: int, b2: int, b3: int): int {
    b0 + 0x100 * b1 + 0x1_0000 * b2 + 0x100_0000 * b3
  }

  /** The word stored at address `a`. */
  function Load(m: seq<byte>, a: nat): (w: nat)
    requires a + 4 <= |m|
    ensures w < WORD
  {
    LittleEndian(m[a], m[a + 1], m[a + 2], m[a + 3])
  }

  /** `n` agrees with `m` at every address outside `[lo, hi)`. */
  ghost predicate SameOutside(m: seq<byte>, n: seq<byte>, lo: int, hi: int) {
    && |n| == |m|
    && forall x :: 0 <= x < |m| && !(lo <= x < hi) ==> n[x] == m[x]
  }

  lemma LoadFrame(m: seq<byte>, n: seq<byte>, lo: int, hi: int, a: nat)
    requires SameOutside(m, n, lo, hi) && a + 4 <= |m|
    requires a + 4 <= lo || hi <= a
    ensures Load(n, a) == Load(m, a)
  {
  }

  method Store(ram: array<byte>, a: nat, w: nat)
    requires a + 4 <= ram.Length && w < WORD
    modifies ram
    ensures SameOutside(old(ram[..]), ram[..], a, a + 4)
    ensures Load(ram[..], a) == w
  {
    ram[a], ram[a + 1] := w % 0x100, w / 0x100 % 0x100;
    ram[a + 2], ram[a + 3] := w / 0x1_0000 % 0x100, w / 0x100_0000;
    BytesOfWord(w);
  }

  lemma BytesOfWord(w: nat)
    requires w < WORD
    ensures w / 0x100_0000 < 0x100
    ensures LittleEndian(w % 0x100, w / 0x100 % 0x100, w / 0x1_0000 % 0x100, w / 0x100_0000) == w
  {
    var a := w / 0x100;
    var b := a / 0x100;
    var c := b / 0x100;
    assert b == w / 0x1_0000 && c == w / 0x100_0000;
    assert w == w % 0x100 + 0x100 * a && a == a % 0x100 + 0x100 * b && b == b % 0x100 + 0x100 * c;
    assert c % 0x100 == c;
  }

  /** The word at address `a` of the current memory. */
  function Word(ram: array<byte>, a: nat): (w: nat)
    requires a + 4 <= ram.Length
    reads ram
    ensures w == Load(ram[..], a)
  {
    LittleEndian(ram[a], ram[a + 1], ram[a + 2], ram[a + 3])
  }
}
