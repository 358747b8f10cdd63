/** `switch_to` of low_level.S, instruction by instruction on registers and stack memory, and
    what any run of switches gives back to a suspended task. */
module ContextSwitch {
  import opened Bits
  import opened Memory
  import opened HeapOwners
  import opened Heap

  const FRAME: nat := 20    // four pushed registers and the return address

  /** The registers a caller finds preserved, the stack pointer after the return, and the
      address returned to. */
  datatype Context = Context(edi: nat, esi: nat, ebx: nat, ebp: nat, esp: nat, eip: nat)

  /** A suspended task with saved stack pointer `sp` holds the context `c` on its stack. */
  ghost predicate FrameAt(m: seq<byte>, sp: nat, c: Context) {
    && sp + FRAME <= |m|
    && Load(m, sp) == c.edi && Load(m, sp + 4) == c.esi && Load(m, sp + 8) == c.ebx
    && Load(m, sp + 12) == c.ebp && Load(m, sp + 16) == c.eip
    && c.esp == sp + FRAME
  }

  lemma FrameStays(m: seq<byte>, n: seq<byte>, a: int, b: int, sp: nat, c: Context)
    requires FrameAt(m, sp, c) && SameOutside(m, n, a, b) && (sp + FRAME <= a || b <= sp)
    ensures FrameAt(n, sp, c)
  {
    hide Load;
    LoadFrame(m, n, a, b, sp);
    LoadFrame(m, n, a, b, sp + 4);
    LoadFrame(m, n, a, b, sp + 8);
    LoadFrame(m, n, a, b, sp + 12);
    LoadFrame(m, n, a, b, sp + 16);
  }

  /** What the caller of `switch_to` demands: its two arguments lie above the return address,
      16 bytes below are free, and neither the saved stack pointer nor the other stack's frame
      meets them. */
  ghost predicate Callable(m: seq<byte>, esp: nat) {
    && 16 <= esp && esp + 12 <= |m| <= WORD
    && var p, s := Load(m, esp + 4), Load(m, esp + 8);
      && p + 4 <= |m| && s + FRAME <= |m|
      && Disjoint(p, 4, esp - 16, 28) && Disjoint(s, FRAME, esp - 16, 16) && Disjoint(p, 4, s, FRAME)
  }

  /** The context the caller of `switch_to` will want back. */
  ghost function Caller(m: seq<byte>, c: Context): Context
    requires c.esp + 4 <= |m|
  {
    c.(esp := c.esp + 4, eip := Load(m, c.esp))
  }

  /** `switch_to` writes nothing but the four words it pushes and the saved stack pointer. */
  ghost predicate SwitchFrame(m: seq<byte>, n: seq<byte>, e: nat, p: nat) {
    && |n| == |m|
    && forall x :: 0 <= x < |m| && !(e - 16 <= x < e) && !(p <= x < p + 4) ==> n[x] == m[x]
  }

  /** What `switch_to` does to memory `m` and registers `c`: the outgoing context is saved where
      the first argument says, the registers become those of the frame the second one names. */
  ghost predicate Switched(m: seq<byte>, c: Context, n: seq<byte>, d: Context)
    requires Callable(m, c.esp)
  {
    var p := Load(m, c.esp + 4);
    && Load(m, c.esp + 8) + FRAME <= |m| == |n|
    && Load(n, p) == c.esp - 16
    && FrameAt(n, c.esp - 16, Caller(m, c))
    && FrameAt(m, Load(m, c.esp + 8), d)
    && SwitchFrame(m, n, c.esp, p)
  }

  class Machine {
    const ram: array<byte>
    var edi: nat
    var esi: nat
    var ebx: nat
    var ebp: nat
    var esp: nat
    var eip: nat

    constructor (ram: array<byte>, c: Context)
      ensures this.ram == ram && Regs() == c
    {
      this.ram := ram;
      edi, esi, ebx, ebp, esp, eip := c.edi, c.esi, c.ebx, c.ebp, c.esp, c.eip;
    }

    ghost function Regs(): Context
      reads this
    {
      Context(edi, esi, ebx, ebp, esp, eip)
    }

    method Push(v: nat)
      requires 4 <= esp <= ram.Length && v < WORD
      modifies this`esp, ram
      ensures esp == old(esp) - 4
      ensures Load(ram[..], esp) == v && SameOutside(old(ram[..]), ram[..], esp, esp + 4)
    {
      esp := esp - 4;
      Store(ram, esp, v);
    }

    method Pop() returns (v: nat)
      requires esp + 4 <= ram.Length
      modifies this`esp
      ensures v == Load(ram[..], old(esp)) && esp == old(esp) + 4
    {
      v := Word(ram, esp);
      esp := esp + 4;
    }

    /** The four pushes at the head of `switch_to`. */
    method PushAll()
      requires 16 <= esp && esp + 4 <= ram.Length
      requires edi < WORD && esi < WORD && ebx < WORD && ebp < WORD
      modifies this`esp, ram
      ensures esp == old(esp) - 16 && FrameAt(ram[..], esp, Caller(old(ram[..]), old(Regs())))
      ensures SameOutside(old(ram[..]), ram[..], esp, esp + 16)
    {
      hide Load, Word, SameOutside;
      ghost var e, m := esp, ram[..];
      Push(ebp);
      ghost var m1 := ram[..];
      LoadFrame(m, m1, e - 4, e, e);
      Push(ebx);
      ghost var m2 := ram[..];
      Apart2(m1, m2, e);
      Push(esi);
      ghost var m3 := ram[..];
      LoadFrame(m2, m3, e - 12, e - 8, e - 8);
      LoadFrame(m2, m3, e - 12, e - 8, e - 4);
      LoadFrame(m2, m3, e - 12, e - 8, e);
      Push(edi);
      LoadFrame(m3, ram[..], e - 16, e - 12, e - 12);
      LoadFrame(m3, ram[..], e - 16, e - 12, e - 8);
      LoadFrame(m3, ram[..], e - 16, e - 12, e - 4);
      LoadFrame(m3, ram[..], e - 16, e - 12, e);
      PushedRange(m, m1, m2, m3, ram[..], e);
    }

    lemma Apart2(m1: seq<byte>, m2: seq<byte>, e: nat)
      requires 8 <= e && e + 4 <= |m1| && SameOutside(m1, m2, e - 8, e - 4)
      ensures Load(m2, e - 4) == Load(m1, e - 4) && Load(m2, e) == Load(m1, e)
    {
      LoadFrame(m1, m2, e - 8, e - 4, e - 4);
      LoadFrame(m1, m2, e - 8, e - 4, e);
    }

    lemma PushedRange(m: seq<byte>, m1: seq<byte>, m2: seq<byte>, m3: seq<byte>, n: seq<byte>, e: nat)
      requires 16 <= e && SameOutside(m, m1, e - 4, e) && SameOutside(m1, m2, e - 8, e - 4)
      requires SameOutside(m2, m3, e - 12, e - 8) && SameOutside(m3, n, e - 16, e - 12)
      ensures SameOutside(m, n, e - 16, e)
    {
    }

    /** The four pops and the `ret` at its end. */
    method PopAll()
      requires esp + FRAME <= ram.Length
      modifies this
      ensures FrameAt(ram[..], old(esp), Regs())
    {
      hide Load, Word;
      edi := Pop();
      esi := Pop();
      ebx := Pop();
      ebp := Pop();
      eip := Pop();
    }

    /** `switch_to`, instruction by instruction. */
    method SwitchTo()
      requires Callable(ram[..], esp)
      requires edi < WORD && esi < WORD && ebx < WORD && ebp < WORD
      modifies this, ram
      ensures Switched(old(ram[..]), old(Regs()), ram[..], Regs())
    {
      hide Load, Word, SameOutside;
      ghost var m, e := ram[..], esp;
      ghost var p, s := Load(m, e + 4), Load(m, e + 8);
      ghost var c := Caller(m, Regs());
      PushAll();
      ghost var m1 := ram[..];
      LoadFrame(m, m1, e - 16, e, e + 4);
      LoadFrame(m, m1, e - 16, e, e + 8);
      var eax := Word(ram, esp + 20);
      Store(ram, eax, esp);
      LoadFrame(m1, ram[..], p, p + 4, e + 8);
      FrameStays(m1, ram[..], p, p + 4, e - 16, c);
      esp := Word(ram, esp + 24);
      PopAll();
      FrameUnchanged(m, m1, ram[..], e, p, s, Regs());
    }
  }

  lemma FrameUnchanged(m: seq<byte>, m1: seq<byte>, n: seq<byte>, e: nat, p: nat, s: nat, c: Context)
    requires SameOutside(m, m1, e - 16, e) && SameOutside(m1, n, p, p + 4) && FrameAt(n, s, c)
    requires Disjoint(s, FRAME, e - 16, 16) && Disjoint(p, 4, s, FRAME)
    ensures FrameAt(m, s, c) && SwitchFrame(m, n, e, p)
  {
    Backwards(m, m1, e - 16, e);
    Backwards(m1, n, p, p + 4);
    FrameStays(n, m1, p, p + 4, s, c);
    FrameStays(m1, m, e - 16, e, s, c);
  }

  lemma Backwards(m: seq<byte>, n: seq<byte>, lo: int, hi: int)
    requires SameOutside(m, n, lo, hi)
    ensures SameOutside(n, m, lo, hi)
  {
  }
}
