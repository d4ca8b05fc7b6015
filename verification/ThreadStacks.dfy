/** Where the thread table's stacks lie in memory: blocks owned by different slots are disjoint byte ranges, clear of
    the boot stack and of the heap's own words. */
module ThreadStacks {
  import opened Words
  import opened HeapBlocks
  import opened HeapMemory
  import opened HeapState
  import opened Frames
  import opened Machine
  import opened Scheduler
  import opened ThreadTable
  import RoundRobin

  const BOOT_STACK := 0xC001_0000
  const BOOT_STACK_END := 0xC001_7E00

  // ---------------------------------------------------------------- memory as cells

  /** Words in memory as cells at the multiples of four. */
  function View(m: seq<Word>): (v: Memory)
    ensures forall w {:trigger m[w]} :: 0 <= w < |m| ==> Rd(v, 4 * w) == m[w]
    ensures forall a :: a in v <==> a % 4 == 0 && 0 <= a < 4 * |m|
  {
    var v := map a: int | 0 <= a < 4 * |m| && a % 4 == 0 :: m[a / 4];
    assert forall w {:trigger m[w]} :: 0 <= w < |m| ==> 4 * w in v && 4 * w / 4 == w;
    v
  }

  /** Storing a word. */
  lemma ViewStore(m: seq<Word>, a: nat, x: Word)
    requires a % 4 == 0 && a < 4 * |m|
    ensures View(m[a / 4 := x]) == View(m)[a := x]
  {
    hide View;
    var l, r := View(m[a / 4 := x]), View(m)[a := x];
    forall b | b in l ensures l[b] == r[b] {
      ViewAt(m[a / 4 := x], b);
      ViewAt(m, b);
    }
  }

  lemma ViewAt(m: seq<Word>, a: nat)
    requires a % 4 == 0 && a < 4 * |m|
    ensures Rd(View(m), a) == m[a / 4]
  {
    assert 4 * (a / 4) == a;
  }

  /** Cells in an interval are alike if the words there are. */
  lemma SameCells(m: seq<Word>, m': seq<Word>, lo: nat, hi: nat)
    requires |m'| == |m|
    requires forall w :: 0 <= w < |m| && lo <= 4 * w < hi ==> m'[w] == m[w]
    ensures forall a :: lo <= a < hi ==> Rd(View(m'), a) == Rd(View(m), a)
  {
  }

  // ---------------------------------------------------------------- the stacks of the table

  /** The byte ranges of a slot's stacks. Slot 0 runs on the boot stack and has no other. */
  function SlotOf(cs: seq<Context>, t: nat): Slot
    requires t < |cs|
  {
    if t == 0 then Slot(cs[0].state, BOOT_STACK, BOOT_STACK_END - BOOT_STACK, 0, 0, cs[0].sp, cs[0].ksp)
    else Slot(cs[t].state, 4 * cs[t].stackBase, STACK_SIZE, 4 * cs[t].kstackBase, STACK_SIZE, cs[t].sp, cs[t].ksp)
  }

  function SlotsOf(cs: seq<Context>): (s: seq<Slot>)
    ensures |s| == |cs|
    ensures forall t {:trigger s[t]} :: 0 <= t < |cs| ==> s[t] == SlotOf(cs, t)
  {
    seq<Slot>(|cs|, (t: nat) requires t < |cs| => SlotOf(cs, t))
  }

  /** The kernel thread runs between 0xC0010000 and 0xC0017E00. */
  lemma BootStack(cs: seq<Context>)
    requires |cs| > 0
    ensures var z := SlotOf(cs, 0);
            z.base == 0xC001_0000 && z.base + z.len == 0xC001_7E00 && z.klen == 0 && z.state == cs[0].state
  {
  }

  lemma SlotState(cs: seq<Context>, t: nat)
    requires t < |cs|
    ensures SlotOf(cs, t).state == cs[t].state
  {
  }

  lemma SameStates(cs: seq<Context>)
    ensures Machine.States(SlotsOf(cs)) == Scheduler.States(cs)
  {
  }

  predicate InUse(cs: seq<Context>, t: nat) {
    t < |cs| && cs[t].state != RoundRobin.Unused
  }

  /** The arenas lie clear of the boot stack, which is in kernel memory. */
  predicate BootClear(s: Layout) {
    s.Shape() && 4 * s.base[0] >= BOOT_STACK_END && 4 * s.limit[1] <= BOOT_STACK
  }

  /** Two live blocks of stack size do not overlap as bytes. */
  lemma BlocksApart(s: Layout, p: nat, q: nat)
    requires s.Shape() && s.limit[0] <= MAX_WORDS
    requires p in s.AllLive() && q in s.AllLive() && p != q
    requires s.AllLive()[p] >= STACK_WORDS && s.AllLive()[q] >= STACK_WORDS
    ensures 4 * p + STACK_SIZE <= 4 * q || 4 * q + STACK_SIZE <= 4 * p
    ensures 4 * p + STACK_SIZE < 0x1_0000_0000
  {
    if p < q { LivePayloadsDisjoint(s, p, q); } else { LivePayloadsDisjoint(s, q, p); }
  }

  /** The stacks of two slots in use never overlap, nor do the two stacks of one slot. */
  lemma OwnedStacksDisjoint(s: Layout, cs: seq<Context>, t: nat, u: nat)
    requires BootClear(s) && s.limit[0] <= MAX_WORDS && Ownership(cs, s.AllLive())
    requires InUse(cs, t) && InUse(cs, u) && t != u
    ensures Disjoint(SlotOf(cs, t), SlotOf(cs, u))
  {
    if t == 0 {
      BootStackDisjoint(s, cs, u);
    } else if u == 0 {
      BootStackDisjoint(s, cs, t);
    } else {
      assert Holds(cs, t) && Holds(cs, u);
      assert OwnsStacks(cs, s.AllLive(), t) && OwnsStacks(cs, s.AllLive(), u);
      assert StacksOf(cs[t]) !! StacksOf(cs[u]);
      assert cs[t].stackBase in StacksOf(cs[t]) && cs[t].kstackBase in StacksOf(cs[t]);
      BlocksApart(s, cs[t].stackBase, cs[u].stackBase);
      BlocksApart(s, cs[t].stackBase, cs[u].kstackBase);
      BlocksApart(s, cs[t].kstackBase, cs[u].stackBase);
      BlocksApart(s, cs[t].kstackBase, cs[u].kstackBase);
    }
  }

  lemma OwnedStacksInside(s: Layout, cs: seq<Context>, t: nat)
    requires s.Shape() && s.limit[0] <= MAX_WORDS && Ownership(cs, s.AllLive()) && InUse(cs, t)
    ensures InAddressSpace(SlotOf(cs, t))
  {
    if t > 0 {
      assert Holds(cs, t) && OwnsStacks(cs, s.AllLive(), t);
      BlocksApart(s, cs[t].stackBase, cs[t].kstackBase);
      BlocksApart(s, cs[t].kstackBase, cs[t].stackBase);
    }
  }

  /** Heap stacks are clear of the boot stack. */
  lemma BootStackDisjoint(s: Layout, cs: seq<Context>, t: nat)
    requires BootClear(s) && Ownership(cs, s.AllLive()) && Holds(cs, t)
    ensures Disjoint(SlotOf(cs, t), SlotOf(cs, 0)) && Disjoint(SlotOf(cs, 0), SlotOf(cs, t))
  {
    assert OwnsStacks(cs, s.AllLive(), t);
    InOneArena(s, cs[t].stackBase);
    InOneArena(s, cs[t].kstackBase);
  }

  /** No stack contains a header or footer word of the heap. */
  lemma StacksHoldNoMetadata(s: Layout, cs: seq<Context>, t: nat, w: nat)
    requires BootClear(s) && Ownership(cs, s.AllLive()) && InUse(cs, t) && InStack(SlotOf(cs, t), 4 * w)
    ensures !s.HoldsMeta(w)
  {
    hide IsMeta, Live;
    if t > 0 {
      assert Holds(cs, t) && OwnsStacks(cs, s.AllLive(), t);
      LivePayloadsHoldNoMetadata(s, if 4 * cs[t].stackBase <= 4 * w < 4 * cs[t].stackBase + STACK_SIZE
                                    then cs[t].stackBase else cs[t].kstackBase, w);
    } else {
      if IsMeta(s.base[0], s.blocks[0], w) { MetaInside(s.base[0], s.blocks[0], w); }
      if IsMeta(s.base[1], s.blocks[1], w) { MetaInside(s.base[1], s.blocks[1], w); }
    }
  }

  /** No stack contains a word of the thread table. */
  lemma StacksHoldNoTable(s: Layout, cs: seq<Context>, table: nat, t: nat, w: nat)
    requires BootClear(s) && table in s.AllLive() && s.AllLive()[table] >= SLOT_WORDS * |cs|
    requires Ownership(cs, s.AllLive() - {table}) && InUse(cs, t) && InStack(SlotOf(cs, t), 4 * w)
    ensures !InTable(table, |cs|, w)
  {
    hide Live, Layout.AllLive;
    InOneArena(s, table);
    if t > 0 && InTable(table, |cs|, w) {
      assert Holds(cs, t) && OwnsStacks(cs, s.AllLive() - {table}, t);
      var p := if 4 * cs[t].stackBase <= 4 * w < 4 * cs[t].stackBase + STACK_SIZE
               then cs[t].stackBase else cs[t].kstackBase;
      assert p in s.AllLive() && p != table && p <= w < p + s.AllLive()[p];
      if p < table { LivePayloadsDisjoint(s, p, table); } else { LivePayloadsDisjoint(s, table, p); }
    }
  }

  /** Keeping the payloads of a slot, and everything outside the arenas, keeps the slot's stacks. */
  lemma KeptStack(m: seq<Word>, m': seq<Word>, s: Layout, kept: map<nat, nat>, cs: seq<Context>, t: nat)
    requires BootClear(s) && KeepsWords(m, m', kept) && KeepsOutside(m, m', s)
    requires t < |cs| && (t > 0 ==> OwnsStacks(cs, kept, t))
    ensures SameStacks(View(m), View(m'), SlotOf(cs, t))
  {
    hide Rd;
    var z := SlotOf(cs, t);
    forall w | 0 <= w < |m| && z.base <= 4 * w < z.base + z.len ensures m'[w] == m[w] {
      if t > 0 { assert cs[t].stackBase in kept && cs[t].stackBase <= w < cs[t].stackBase + kept[cs[t].stackBase]; }
    }
    forall w | 0 <= w < |m| && z.kbase <= 4 * w < z.kbase + z.klen ensures m'[w] == m[w] {
      if t > 0 { assert cs[t].kstackBase in kept && cs[t].kstackBase <= w < cs[t].kstackBase + kept[cs[t].kstackBase]; }
    }
    SameCells(m, m', z.base, z.base + z.len);
    SameCells(m, m', z.kbase, z.kbase + z.klen);
  }
}
