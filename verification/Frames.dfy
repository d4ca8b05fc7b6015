/** Interrupt frames: what the timer path pushes, what it pops, and the first frame of a new thread. */
module Frames {
  import opened Words
  import opened Segments

  /** Memory as 32-bit cells at the addresses that have been written; other cells hold zero. */
  type Memory = map<int, Word>

  function Rd(m: Memory, a: int): Word { if a in m then m[a] else 0 }

  datatype Cpu = Cpu(eax: Word, ecx: Word, edx: Word, ebx: Word, ebp: Word, esi: Word, edi: Word,
                     ds: Word, es: Word, fs: Word, gs: Word,
                     eip: Word, cs: Word, eflags: Word, esp: Word, ss: Word)

  const KERNEL_DATA: Word := 0x10
  const KERNEL_CODE: Word := 0x08
  const USER_DATA: Word := 0x23
  const USER_CODE: Word := 0x1B
  const KERNEL_FRAME := 60     // fifteen words
  const USER_FRAME := 68       // and two more on a change of privilege

  /** The privilege bits of a code selector. */
  predicate InUserMode(cs: Word) { cs % 4 != 0 }

  // ---------------------------------------------------------------- pushing and popping

  function PushAll(m: Memory, sp: int, vs: seq<Word>): (Memory, int)
    decreases vs
  {
    if vs == [] then (m, sp) else PushAll(m[sp - 4 := vs[0]], sp - 4, vs[1..])
  }

  lemma {:induction false} PushAllSnoc(m: Memory, sp: int, vs: seq<Word>, v: Word)
    ensures var (m1, sp1) := PushAll(m, sp, vs);
            PushAll(m, sp, vs + [v]) == (m1[sp1 - 4 := v], sp1 - 4)
    decreases vs
  {
    if vs == [] {
      assert ([v])[1..] == [];
    } else {
      assert (vs + [v])[1..] == vs[1..] + [v];
      PushAllSnoc(m[sp - 4 := vs[0]], sp - 4, vs[1..], v);
    }
  }

  /** Pushed words are found where the stack grew, and nothing else changes. */
  lemma {:induction false} PushAllAt(m: Memory, sp: int, vs: seq<Word>)
    ensures var (m', sp') := PushAll(m, sp, vs);
            && sp' == sp - 4 * |vs|
            && (forall a :: !(sp' <= a < sp) ==> Rd(m', a) == Rd(m, a))
            && (forall i :: 0 <= i < |vs| ==> Rd(m', sp - 4 * (i + 1)) == vs[i])
    decreases vs
  {
    if vs != [] {
      var m1 := m[sp - 4 := vs[0]];
      PushAllAt(m1, sp - 4, vs[1..]);
      var (m', sp') := PushAll(m, sp, vs);
      forall i | 0 <= i < |vs| ensures Rd(m', sp - 4 * (i + 1)) == vs[i] {
        if i > 0 {
          assert vs[1..][i - 1] == vs[i];
          assert Rd(m', (sp - 4) - 4 * ((i - 1) + 1)) == vs[1..][i - 1];
        }
      }
    }
  }

  // ---------------------------------------------------------------- the timer path

  /** Everything the processor and `_isr32` push, in order; `temp` is the stack pointer `pusha` stores. */
  function Encode(c: Cpu, temp: Word): seq<Word> {
    (if InUserMode(c.cs) then [c.ss, c.esp] else [])
    + [c.eflags, c.cs, c.eip]
    + [c.eax, c.ecx, c.edx, c.ebx, temp, c.ebp, c.esi, c.edi]
    + [c.gs, c.fs, c.es, c.ds]
  }

  /** The state that the pops at the end of `_isr32` produce from a stack pointer. */
  function Decode(m: Memory, sp: Word): Cpu
    requires sp + KERNEL_FRAME < WORD_LIMIT
  {
    var cs := Rd(m, sp + 52);
    Cpu(Rd(m, sp + 44), Rd(m, sp + 40), Rd(m, sp + 36), Rd(m, sp + 32), Rd(m, sp + 24), Rd(m, sp + 20), Rd(m, sp + 16),
        Rd(m, sp), Rd(m, sp + 4), Rd(m, sp + 8), Rd(m, sp + 12),
        Rd(m, sp + 48), cs, Rd(m, sp + 56),
        if InUserMode(cs) then Rd(m, sp + 60) else sp + KERNEL_FRAME,
        if InUserMode(cs) then Rd(m, sp + 64) else KERNEL_DATA)
  }

  function FrameSize(cs: Word): nat { if InUserMode(cs) then USER_FRAME else KERNEL_FRAME }

  /** Popping a frame restores every register that was pushed, in both privilege cases. */
  lemma SaveThenRestore(m: Memory, top: Word, c: Cpu, temp: Word)
    requires top >= FrameSize(c.cs)
    requires InUserMode(c.cs) || (top == c.esp && c.ss == KERNEL_DATA)
    ensures var (m', sp) := PushAll(m, top, Encode(c, temp));
            && sp == top - FrameSize(c.cs) == top - (if c.cs % 4 == 0 then 60 else 68)
            && Decode(m', sp) == c
  {
    hide PushAll, Rd;
    var vs := Encode(c, temp);
    PushAllAt(m, top, vs);
    var (m', sp) := PushAll(m, top, vs);
    var n := |vs|;
    forall i | 0 <= i < n ensures Rd(m', sp + 4 * i) == vs[n - 1 - i] {
      assert sp + 4 * i == top - 4 * ((n - 1 - i) + 1);
    }
    assert Rd(m', sp + 4 * 0) == vs[n - 1];
    assert Rd(m', sp + 4 * 1) == vs[n - 2];
    assert Rd(m', sp + 4 * 2) == vs[n - 3];
    assert Rd(m', sp + 4 * 3) == vs[n - 4];
    assert Rd(m', sp + 4 * 4) == vs[n - 5];
    assert Rd(m', sp + 4 * 5) == vs[n - 6];
    assert Rd(m', sp + 4 * 6) == vs[n - 7];
    assert Rd(m', sp + 4 * 8) == vs[n - 9];
    assert Rd(m', sp + 4 * 9) == vs[n - 10];
    assert Rd(m', sp + 4 * 10) == vs[n - 11];
    assert Rd(m', sp + 4 * 11) == vs[n - 12];
    assert Rd(m', sp + 4 * 12) == vs[n - 13];
    assert Rd(m', sp + 4 * 13) == vs[n - 14];
    assert Rd(m', sp + 4 * 14) == vs[n - 15];
    if InUserMode(c.cs) {
      assert Rd(m', sp + 4 * 15) == vs[n - 16];
      assert Rd(m', sp + 4 * 16) == vs[n - 17];
    }
  }

  /** A frame decodes alike in memories that agree on its cells. */
  lemma DecodeDependsOnFrame(m: Memory, m': Memory, sp: Word)
    requires sp + KERNEL_FRAME < WORD_LIMIT
    requires forall a :: sp <= a < sp + FrameSize(Rd(m, sp + 52)) ==> Rd(m', a) == Rd(m, a)
    ensures Decode(m', sp) == Decode(m, sp)
  {
  }

  // ---------------------------------------------------------------- the first frame

  function CodeFor(priv: nat): Word { if priv == 0 then KERNEL_CODE else USER_CODE }

  function DataFor(priv: nat): Word { if priv == 0 then KERNEL_DATA else USER_DATA }

  /** How a thread starts: at its function, interrupts on, all registers zero, its argument on the stack above
      a null return address. */
  function FreshCpu(thread: Word, priv: nat, top: Word): Cpu
    requires top >= 8
  {
    var d := DataFor(priv);
    Cpu(0, 0, 0, 0, 0, 0, 0, d, d, d, d, thread, CodeFor(priv), 0x0202, top - 8, d)
  }

  /** The words `kt_init_context` stores, in order. */
  function FirstWords(thread: Word, arg: Word, priv: nat, top: Word): seq<Word>
    requires top >= 8
  {
    [arg, 0] + Encode(FreshCpu(thread, priv, top), 0)
  }

  /** A thread about to run its first instruction: at its function, interrupts on, with code and data segments of
      its level, its argument above a null return address where its stack pointer is. */
  predicate EntersAt(m: Memory, c: Cpu, thread: Word, arg: Word, level: nat, top: int) {
    && c.eip == thread && c.eflags / 0x200 % 2 == 1 && c.eflags % 0x200 == 2 && c.eflags < 0x400
    && SelectsCode(c.cs, level)
    && SelectsData(c.ds, level) && SelectsData(c.es, level) && SelectsData(c.fs, level) && SelectsData(c.gs, level)
    && SelectsData(c.ss, level)
    && c.esp == top - 8 && Rd(m, top - 8) == 0 && Rd(m, top - 4) == arg
    && [c.eax, c.ecx, c.edx, c.ebx, c.ebp, c.esi, c.edi] == [0, 0, 0, 0, 0, 0, 0]
  }

  /** The processor changes stacks exactly for code of a level other than 0. */
  lemma UserModeIsLevel(cs: Word, level: nat)
    requires SelectsCode(cs, level)
    ensures (level == 0 || level == 3) && (InUserMode(cs) <==> level == 3)
  {
    hide DescribesData;
    Entries();
  }

  /** The selectors for a privilege stand for segments of its level. */
  lemma CodeFits(priv: nat)
    ensures SelectsCode(CodeFor(priv), if priv == 0 then 0 else 3)
  {
    hide DescribesCode, DescribesData;
    Entries();
    assert CodeFor(priv) / 8 == if priv == 0 then 1 else 3;
  }

  lemma DataFits(priv: nat)
    ensures SelectsData(DataFor(priv), if priv == 0 then 0 else 3)
  {
    hide DescribesCode, DescribesData;
    Entries();
    assert DataFor(priv) / 8 == if priv == 0 then 2 else 4;
  }

  /** Dispatching the fabricated frame for the first time starts the thread as it should. */
  lemma FirstDispatch(m: Memory, thread: Word, arg: Word, priv: nat, top: Word)
    requires top >= 8 + USER_FRAME
    ensures var (m', sp) := PushAll(m, top, FirstWords(thread, arg, priv, top));
            var c := FreshCpu(thread, priv, top);
            && sp == top - 8 - FrameSize(c.cs)
            && Decode(m', sp) == c
            && EntersAt(m', Decode(m', sp), thread, arg, if priv == 0 then 0 else 3, top)
  {
    CodeFits(priv);
    DataFits(priv);
    hide SelectsCode, SelectsData;
    var c := FreshCpu(thread, priv, top);
    var m1, sp1 := PushAll(m, top, [arg, 0]).0, PushAll(m, top, [arg, 0]).1;
    PushAllAt(m, top, [arg, 0]);
    PushAllConcat(m, top, [arg, 0], Encode(c, 0));
    SaveThenRestore(m1, sp1, c, 0);
    PushAllAt(m1, sp1, Encode(c, 0));
    assert Rd(m1, top - 4 * (0 + 1)) == arg && Rd(m1, top - 4 * (1 + 1)) == 0;
  }

  lemma {:induction false} PushAllConcat(m: Memory, sp: int, xs: seq<Word>, ys: seq<Word>)
    ensures var (m1, sp1) := PushAll(m, sp, xs);
            PushAll(m, sp, xs + ys) == PushAll(m1, sp1, ys)
    decreases xs
  {
    if xs == [] {
      assert xs + ys == ys;
    } else {
      assert (xs + ys)[1..] == xs[1..] + ys;
      PushAllConcat(m[sp - 4 := xs[0]], sp - 4, xs[1..], ys);
    }
  }
}
