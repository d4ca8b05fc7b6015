/** The running kernel: the processor, the thread table and the heap in one memory. Stacks come from the heap and go
    back to it, and each thread resumes as it left. */
module Kernel {
  import opened Words
  import opened HeapMemory
  import opened HeapState
  import opened Kmalloc
  import opened Frames
  import opened Machine
  import opened Scheduler
  import opened ThreadTable
  import opened ThreadStacks
  import RoundRobin

  // ---------------------------------------------------------------- one tick, on values

  /** Words the timer handler may store: none of the heap's own, none of the stack of another running thread, and
      of the stacks of the interrupted one only those below its frame. */
  ghost predicate HandlerMay(s: Layout, table: nat, cs: seq<Context>, c: nat, cpu: Cpu, esp0: Word,
                             scratch: map<nat, Word>)
    requires s.Shape() && c < |cs|
  {
    var top := FrameTop(cpu, esp0);
    forall w: nat :: w in scratch ==>
      && !s.HoldsMeta(w) && !InTable(table, |cs|, w)
      && (forall t :: 0 <= t < |cs| && t != c && cs[t].state == RoundRobin.Running ==> !InStack(SlotOf(cs, t), 4 * w))
      && (InStack(SlotOf(cs, c), 4 * w) ==> Bottom(SlotOf(cs, c), top) <= 4 * w < top - FrameSize(cpu.cs))
  }

  /** What a preemption leaves alone: the stacks of the other running threads. */
  ghost predicate OthersKept(m: seq<Word>, m': seq<Word>, cs: seq<Context>, c: nat) {
    forall t :: 0 <= t < |cs| && t != c && cs[t].state == RoundRobin.Running ==>
      SameStacks(View(m), View(m'), SlotOf(cs, t))
  }

  /** And of the interrupted thread's stacks all but the part below the frame top. */
  ghost predicate UpperKept(m: seq<Word>, m': seq<Word>, s: Slot, top: int) {
    forall a :: InStack(s, a) && !(Bottom(s, top) <= a < top) ==> Rd(View(m'), a) == Rd(View(m), a)
  }

  ghost predicate Overwritten(m: seq<Word>, m': seq<Word>, scratch: map<nat, Word>) {
    |m'| == |m| && forall w: nat :: w < |m| ==> m'[w] == if w in scratch then scratch[w] else m[w]
  }

  /** The words of a stretch of memory that cells outside an interval fix. */
  lemma WordsOutside(m: seq<Word>, m': seq<Word>, lo: int, hi: int, w: nat)
    requires |m'| == |m| && w < |m| && !(lo <= 4 * w < hi)
    requires forall a :: !(lo <= a < hi) ==> Rd(View(m'), a) == Rd(View(m), a)
    ensures m'[w] == m[w]
  {
    assert Rd(View(m'), 4 * w) == Rd(View(m), 4 * w);
  }

  /** Pushing the frame and the handler's stores leave the heap laid out as it was. */
  lemma ParkSparesHeap(m: seq<Word>, m1: seq<Word>, m2: seq<Word>, s: Layout, table: nat, cs: seq<Context>, c: nat,
                       cpu: Cpu, esp0: Word, scratch: map<nat, Word>, lo: int, hi: int)
    requires Consistent(m, s) && BootClear(s) && Ownership(cs, s.AllLive()) && InUse(cs, c)
    requires WithinStack(SlotOf(cs, c), lo, hi) && |m1| == |m|
    requires forall a :: !(lo <= a < hi) ==> Rd(View(m1), a) == Rd(View(m), a)
    requires HandlerMay(s, table, cs, c, cpu, esp0, scratch) && Overwritten(m1, m2, scratch)
    ensures Consistent(m2, s)
  {
    hide Rd, View, Layout.HoldsMeta, Ownership, SlotOf, Tiled;
    forall w | 0 <= w < |m| && s.HoldsMeta(w) ensures m2[w] == m[w] {
      if lo <= 4 * w < hi { StacksHoldNoMetadata(s, cs, c, w); }
      WordsOutside(m, m1, lo, hi, w);
    }
    StoresKeepHeap(m, m2, s);
  }

  /** And so do they the thread table. */
  lemma ParkSparesTable(m: seq<Word>, m1: seq<Word>, m2: seq<Word>, s: Layout, table: nat, cs: seq<Context>, c: nat,
                        cpu: Cpu, esp0: Word, scratch: map<nat, Word>, lo: int, hi: int)
    requires BootClear(s) && table in s.AllLive() && s.AllLive()[table] >= SLOT_WORDS * |cs| && TableIn(m, table, cs)
    requires Ownership(cs, s.AllLive() - {table}) && InUse(cs, c)
    requires WithinStack(SlotOf(cs, c), lo, hi) && |m1| == |m|
    requires forall a :: !(lo <= a < hi) ==> Rd(View(m1), a) == Rd(View(m), a)
    requires HandlerMay(s, table, cs, c, cpu, esp0, scratch) && Overwritten(m1, m2, scratch)
    ensures TableIn(m2, table, cs)
  {
    hide Rd, View, Layout.HoldsMeta, Layout.AllLive, Ownership, SlotOf, TableIn, BootClear;
    forall w | 0 <= w < |m| && InTable(table, |cs|, w) ensures m2[w] == m[w] {
      if lo <= 4 * w < hi { StacksHoldNoTable(s, cs, table, c, w); }
      WordsOutside(m, m1, lo, hi, w);
    }
    TableKept(m, m2, table, cs);
  }

  lemma ParkSparesOthers(m: seq<Word>, m1: seq<Word>, m2: seq<Word>, s: Layout, table: nat, cs: seq<Context>, c: nat,
                         cpu: Cpu, esp0: Word, scratch: map<nat, Word>, lo: int, hi: int)
    requires BootClear(s) && s.limit[0] <= MAX_WORDS && Ownership(cs, s.AllLive()) && InUse(cs, c)
    requires WithinStack(SlotOf(cs, c), lo, hi) && |m1| == |m|
    requires forall a :: !(lo <= a < hi) ==> Rd(View(m1), a) == Rd(View(m), a)
    requires HandlerMay(s, table, cs, c, cpu, esp0, scratch) && Overwritten(m1, m2, scratch)
    ensures OthersKept(m, m2, cs, c)
  {
    hide Rd, Layout.HoldsMeta, Ownership, SlotOf, BootClear;
    forall t | 0 <= t < |cs| && t != c && cs[t].state == RoundRobin.Running
      ensures SameStacks(View(m), View(m2), SlotOf(cs, t))
    {
      OwnedStacksDisjoint(s, cs, c, t);
      var z := SlotOf(cs, t);
      forall w | 0 <= w < |m| && InStack(z, 4 * w) ensures m2[w] == m[w] {
        WordsOutside(m, m1, lo, hi, w);
      }
      SameCells(m, m2, z.base, z.base + z.len);
      SameCells(m, m2, z.kbase, z.kbase + z.klen);
    }
  }

  /** The frame stays as it was pushed, and above its top nothing changes. */
  lemma ParkSparesFrame(m: seq<Word>, m1: seq<Word>, m2: seq<Word>, s: Layout, table: nat, cs: seq<Context>, c: nat,
                        cpu: Cpu, esp0: Word, scratch: map<nat, Word>)
    requires s.Shape() && c < |cs| && |m1| == |m|
    requires var z, top := SlotOf(cs, c), FrameTop(cpu, esp0);
             && WithinStack(z, Bottom(z, top), top) && WithinStack(z, top - FrameSize(cpu.cs), top)
             && Bottom(z, top) <= top - FrameSize(cpu.cs)
             && forall a :: !(top - FrameSize(cpu.cs) <= a < top) ==> Rd(View(m1), a) == Rd(View(m), a)
    requires HandlerMay(s, table, cs, c, cpu, esp0, scratch) && Overwritten(m1, m2, scratch)
    ensures var top := FrameTop(cpu, esp0);
            && (forall a :: top - FrameSize(cpu.cs) <= a < top ==> Rd(View(m2), a) == Rd(View(m1), a))
            && UpperKept(m, m2, SlotOf(cs, c), top)
  {
    hide Layout.HoldsMeta, SlotOf;
    var z, top := SlotOf(cs, c), FrameTop(cpu, esp0);
    var sp := top - FrameSize(cpu.cs);
    forall a | InStack(z, a) && !(Bottom(z, top) <= a < sp) ensures Rd(View(m2), a) == Rd(View(m1), a) {
      CellKept(m1, m2, a);
    }
  }

  /** A cell is alike if its word is, whether or not there is one. */
  lemma CellKept(m: seq<Word>, m': seq<Word>, a: int)
    requires |m'| == |m| && (a % 4 == 0 && 0 <= a < 4 * |m| ==> m'[a / 4] == m[a / 4])
    ensures Rd(View(m'), a) == Rd(View(m), a)
  {
    if a % 4 == 0 && 0 <= a < 4 * |m| {
      ViewAt(m, a);
      ViewAt(m', a);
    }
  }

  /** The slots as the machine sees them before and after a scheduler call. */
  lemma ScheduledSlots(cs: seq<Context>, now: seq<Context>, c: nat)
    requires c < |cs| == |now| && Scheduler.States(now) == RoundRobin.AfterCall(Scheduler.States(cs), c)
    requires forall t :: 0 <= t < |cs| ==> now[t] == cs[t].(state := now[t].state)
    ensures AfterSchedule(SlotsOf(cs), SlotsOf(now), c)
  {
    hide RoundRobin.AfterCall;
    SameStates(cs);
    SameStates(now);
  }

  lemma SavedPointer(cs: seq<Context>, c: nat, sp: Word)
    requires c < |cs|
    ensures SlotsOf(cs[c := cs[c].(sp := sp)]) == SlotsOf(cs)[c := SlotOf(cs, c).(sp := sp)]
  {
    var l, r := SlotsOf(cs[c := cs[c].(sp := sp)]), SlotsOf(cs)[c := SlotOf(cs, c).(sp := sp)];
    forall t | 0 <= t < |cs| ensures l[t] == r[t] {
    }
  }

  /** What the scheduler call leaves of the stacks. */
  lemma ScheduleSparesStacks(m: seq<Word>, m': seq<Word>, s: Layout, live: map<nat, nat>, cs: seq<Context>, t: nat)
    requires BootClear(s) && Ownership(cs, live) && InUse(cs, t)
    requires KeepsWords(m, m', live) && KeepsOutside(m, m', s)
    ensures SameStacks(View(m), View(m'), SlotOf(cs, t))
  {
    hide KeepsWords, KeepsOutside, View, SameStacks, SlotOf;
    if t > 0 { assert Holds(cs, t) && OwnsStacks(cs, live, t); }
    KeptStack(m, m', s, live, cs, t);
  }

  ghost predicate StacksSame(m: seq<Word>, m': seq<Word>, cs: seq<Context>) {
    forall t: nat :: InUse(cs, t) ==> SameStacks(View(m), View(m'), SlotOf(cs, t))
  }

  /** Keeping the payloads the slots own keeps their stacks. */
  lemma KeptStacks(m: seq<Word>, m': seq<Word>, s: Layout, live: map<nat, nat>, cs: seq<Context>)
    requires BootClear(s) && Ownership(cs, live) && KeepsWords(m, m', live) && KeepsOutside(m, m', s)
    ensures StacksSame(m, m', cs)
  {
    hide KeepsWords, KeepsOutside, View, SameStacks, SlotOf, BootClear, Ownership;
    forall t: nat | InUse(cs, t) ensures SameStacks(View(m), View(m'), SlotOf(cs, t)) {
      ScheduleSparesStacks(m, m', s, live, cs, t);
    }
  }

  /** Storing the stack pointer in the table leaves every thread parked. */
  lemma StoreKeepsParked(m: seq<Word>, m': seq<Word>, s: Layout, live: map<nat, nat>, cs: seq<Context>, from: nat,
                         to: nat, sp: Word, cpu: Cpu, saved: seq<Snapshot>)
    requires BootClear(s) && Ownership(cs, live) && KeepsWords(m, m', live) && KeepsOutside(m, m', s)
    requires InUse(cs, from) && to < |cs| == |saved| && from != to
    requires cs[to].state == RoundRobin.Running && Parked(View(m), SlotOf(cs, to), saved[to])
    requires Parked(View(m), SlotOf(cs, from).(sp := sp), Snapshot(cpu, View(m)))
    requires AllParked(View(m), SlotsOf(cs[from := cs[from].(sp := sp)]), to, saved[from := Snapshot(cpu, View(m))])
    ensures AllParked(View(m'), SlotsOf(cs[from := cs[from].(sp := sp)]), to, saved[from := Snapshot(cpu, View(m'))])
    ensures Parked(View(m'), SlotOf(cs, to), saved[to]) && StacksSame(m, m', cs)
  {
    hide View, SameStacks, Parked, KeepsWords, KeepsOutside, BootClear, Ownership, SlotOf;
    KeptStacks(m, m', s, live, cs);
    var now, saved0 := cs[from := cs[from].(sp := sp)], saved[from := Snapshot(cpu, View(m))];
    SlotWithPointer(cs, from, sp);
    StaysParked(View(m), View(m'), SlotOf(cs, to), saved[to]);
    SameRangeStacks(View(m), View(m'), SlotOf(cs, from), sp);
    ParkedAgain(View(m), View(m'), SlotOf(cs, from).(sp := sp), cpu);
    forall t | 0 <= t < |cs| && t != from && SlotOf(now, t).state == RoundRobin.Running && t != to
      ensures Parked(View(m'), SlotOf(now, t), saved[t])
    {
      SameSlot(cs, now, t);
      SlotState(cs, t);
      assert SlotsOf(now)[t] == SlotOf(now, t) && saved0[t] == saved[t];
      StaysParked(View(m), View(m'), SlotOf(cs, t), saved[t]);
    }
  }

  /** What the store of the stack pointer leaves of what a preemption left. */
  lemma SwitchSpares(m0: seq<Word>, m2: seq<Word>, m3: seq<Word>, now: seq<Context>, c: nat, top: int)
    requires OthersKept(m0, m2, now, c) && StacksSame(m2, m3, now) && InUse(now, c)
    requires UpperKept(m0, m2, SlotOf(now, c), top)
    ensures OthersKept(m0, m3, now, c) && UpperKept(m0, m3, SlotOf(now, c), top)
  {
    hide View, SameStacks, SlotOf, UpperKept;
    forall t | 0 <= t < |now| && t != c && now[t].state == RoundRobin.Running
      ensures SameStacks(View(m0), View(m3), SlotOf(now, t))
    {
      assert InUse(now, t);
      SameStacksChain(View(m0), View(m2), View(m3), SlotOf(now, t));
    }
    UpperChain(m0, m2, m3, SlotOf(now, c), top);
  }

  lemma OwnedInHeap(cs: seq<Context>, live: map<nat, nat>, table: nat)
    requires Ownership(cs, live - {table})
    ensures Ownership(cs, live)
  {
    MoreLive(cs, live - {table}, live);
  }

  /** A whole tick: `m0` before it, `m1` when the handler calls the scheduler, `m2` after that. Every thread but the
      current one is parked then, and so is the current one at `sp`. */
  lemma TickKeepsParked(m0: seq<Word>, m1: seq<Word>, m2: seq<Word>, s: Layout, live: map<nat, nat>,
                        cs: seq<Context>, now: seq<Context>, c: nat, cpu: Cpu, esp0: Word, saved: seq<Snapshot>,
                        sp: Word)
    requires Sound(View(m0), cpu, esp0, SlotsOf(cs), c, saved) && OthersKept(m0, m1, cs, c)
    requires Parked(View(m1), SlotOf(cs, c).(sp := sp), Snapshot(cpu, View(m1)))
    requires c < |cs| == |now| && Scheduler.States(now) == RoundRobin.AfterCall(Scheduler.States(cs), c)
    requires forall t :: 0 <= t < |cs| ==> now[t] == cs[t].(state := now[t].state)
    requires BootClear(s) && Ownership(now, live)
    requires KeepsWords(m1, m2, live) && KeepsOutside(m1, m2, s)
    ensures |saved| == |cs| && now[c] == cs[c] && OthersKept(m0, m2, now, c)
    ensures SameStacks(View(m1), View(m2), SlotOf(cs, c))
    ensures Parked(View(m2), SlotOf(now, c).(sp := sp), Snapshot(cpu, View(m2)))
    ensures var slots := SlotsOf(now);
            AllInside(slots) && AllParked(View(m2), slots, c, saved)
    ensures var slots, saved' := SlotsOf(now[c := now[c].(sp := sp)]), saved[c := Snapshot(cpu, View(m2))];
            && AllInside(slots) && (forall n :: AllParked(View(m2), slots, n, saved'))
            && var n := RoundRobin.NextThread(Scheduler.States(cs), c);
            n != c ==> now[n].state == RoundRobin.Running && Parked(View(m2), SlotOf(now, n), saved'[n])
  {
    hide View, SameStacks, Parked, KeepsWords, KeepsOutside, RoundRobin.AfterCall, RoundRobin.NextThread, BootClear,
         Ownership, Layout.AllLive, Runnable, InAddressSpace;
    var slots := SlotsOf(now);
    ScheduledSlots(cs, now, c);
    SameStates(cs);
    CurrentStays(SlotsOf(cs), slots, c);
    SameCurrent(cs, now, c);
    forall t | 0 <= t < |now| && t != c && now[t].state == RoundRobin.Running
      ensures SameStacks(View(m0), View(m2), SlotOf(now, t))
    {
      RoundRobin.OnlyFinishedOthersReaped(Scheduler.States(cs), c, t);
      assert Scheduler.States(now)[t] == RoundRobin.AfterCall(Scheduler.States(cs), c)[t];
      ScheduleSparesStacks(m1, m2, s, live, now, t);
      SameStacksChain(View(m0), View(m1), View(m2), SlotOf(now, t));
    }
    ScheduleSparesStacks(m1, m2, s, live, now, c);
    SameRangeStacks(View(m1), View(m2), SlotOf(now, c), sp);
    ParkedAgain(View(m1), View(m2), SlotOf(now, c).(sp := sp), cpu);
    SwitchKeepsParked(View(m0), View(m2), SlotsOf(cs), slots, c, saved, cpu, esp0, sp);
    SavedPointer(now, c, sp);
  }

  lemma SameCurrent(cs: seq<Context>, now: seq<Context>, c: nat)
    requires c < |cs| == |now| && now[c] == cs[c].(state := now[c].state)
    requires SlotsOf(now)[c] == SlotsOf(cs)[c] && SlotsOf(cs)[c].state != RoundRobin.Unused
    ensures now[c] == cs[c] && InUse(now, c)
  {
  }

  lemma SameStacksChain(m0: Memory, m1: Memory, m2: Memory, s: Slot)
    requires SameStacks(m0, m1, s) && SameStacks(m1, m2, s)
    ensures SameStacks(m0, m2, s)
  {
  }

  lemma SameRangeStacks(m: Memory, m': Memory, s: Slot, sp: Word)
    requires SameStacks(m, m', s)
    ensures SameStacks(m, m', s.(sp := sp))
  {
  }

  // ---------------------------------------------------------------- the machine

  class System {
    const threads: Threads
    const mem: array<Word>       // all of memory
    var cpu: Cpu
    var esp0: Word               // tss->esp0
    var sp: Word                 // the stack pointer inside the handler
    ghost var saved: seq<Snapshot>

    ghost predicate Valid()
      reads this, threads, threads.heap, threads.heap.mem, mem
    {
      && mem == threads.heap.mem && mem.Length == MAX_WORDS
      && threads.Valid() && BootClear(threads.heap.State())
      && Sound(Mem(), cpu, esp0, SlotsOf(threads.ctxs), threads.current, saved)
    }

    ghost function Mem(): Memory
      reads mem
    {
      View(mem[..])
    }

    /** The thread table as the scheduling rules see it. */
    ghost function Table(): RoundRobin.System
      reads threads
    {
      RoundRobin.System(Scheduler.States(threads.ctxs), threads.current)
    }

    /** The boot state: slot 0 is the kernel on its boot stack, every other slot is unused. */
    constructor (slots: Threads, start: Cpu, esp0Start: Word)
      requires slots.Valid() && slots.current == 0 && BootClear(slots.heap.State())
      requires slots.heap.mem.Length == MAX_WORDS
      requires forall t :: 0 < t < slots.count ==> slots.ctxs[t].state == RoundRobin.Unused
      requires !InUserMode(start.cs) && start.ss == KERNEL_DATA && start.esp % 4 == 0
      requires 0xC001_0000 + KERNEL_FRAME <= start.esp <= 0xC001_7E00
      ensures Valid() && threads == slots && cpu == start
    {
      threads, mem, cpu, esp0, sp := slots, slots.heap.mem, start, esp0Start, 0;
      saved := seq<Snapshot>(slots.count, _ => Snapshot(start, map[]));
      new;
      hide View, Sound, SlotsOf, Consistent, Layout.AllLive, TableIn, Ownership, BootClear;
      SlotZeroRuns(threads.ctxs, threads.Others());
      BootSound(Mem(), threads.ctxs, start, esp0Start, saved);
    }

    // -------------------------------------------------------------- pushing

    method Push(v: Word, ghost m0: Memory, ghost top: int, ghost trail: seq<Word>) returns (ghost pushed: seq<Word>)
      requires mem.Length == MAX_WORDS && sp >= 4 && sp % 4 == 0 && (Mem(), sp as int) == PushAll(m0, top, trail)
      modifies mem, this`sp
      ensures pushed == trail + [v] && sp == old(sp) - 4
      ensures (Mem(), sp as int) == PushAll(m0, top, pushed)
    {
      hide View;
      PushAllSnoc(m0, top, trail, v);
      ViewStore(mem[..], sp - 4, v);
      sp := sp - 4;
      mem[sp / 4] := v;
      pushed := trail + [v];
    }

    /** The processor's part of the interrupt. */
    method PushInterrupt(ghost m0: Memory, ghost top: int) returns (ghost pushed: seq<Word>)
      requires mem.Length == MAX_WORDS && sp >= 20 && sp % 4 == 0 && Mem() == m0 && sp == top
      modifies mem, this`sp
      ensures pushed == (if InUserMode(cpu.cs) then [cpu.ss, cpu.esp] else []) + [cpu.eflags, cpu.cs, cpu.eip]
      ensures (Mem(), sp as int) == PushAll(m0, top, pushed) && sp == old(sp) - 4 * |pushed|
    {
      hide PushAll, Mem;
      PushNothing(Mem(), sp);
      pushed := [];
      if InUserMode(cpu.cs) {
        pushed := Push(cpu.ss, m0, top, pushed);
        pushed := Push(cpu.esp, m0, top, pushed);
      }
      pushed := Push(cpu.eflags, m0, top, pushed);
      pushed := Push(cpu.cs, m0, top, pushed);
      pushed := Push(cpu.eip, m0, top, pushed);
    }

    /** `pusha` */
    method PushGeneral(ghost m0: Memory, ghost top: int, ghost trail: seq<Word>) returns (ghost pushed: seq<Word>)
      requires mem.Length == MAX_WORDS && sp >= 32 && sp % 4 == 0 && (Mem(), sp as int) == PushAll(m0, top, trail)
      modifies mem, this`sp
      ensures pushed == trail + [cpu.eax, cpu.ecx, cpu.edx, cpu.ebx, old(sp), cpu.ebp, cpu.esi, cpu.edi]
      ensures (Mem(), sp as int) == PushAll(m0, top, pushed) && sp == old(sp) - 32
    {
      hide PushAll, Mem;
      var temp := sp;
      ghost var tr := Push(cpu.eax, m0, top, trail);
      tr := Push(cpu.ecx, m0, top, tr);
      tr := Push(cpu.edx, m0, top, tr);
      tr := Push(cpu.ebx, m0, top, tr);
      tr := Push(temp, m0, top, tr);
      tr := Push(cpu.ebp, m0, top, tr);
      tr := Push(cpu.esi, m0, top, tr);
      pushed := Push(cpu.edi, m0, top, tr);
    }

    method PushSegments(ghost m0: Memory, ghost top: int, ghost trail: seq<Word>) returns (ghost pushed: seq<Word>)
      requires mem.Length == MAX_WORDS && sp >= 16 && sp % 4 == 0 && (Mem(), sp as int) == PushAll(m0, top, trail)
      modifies mem, this`sp
      ensures pushed == trail + [cpu.gs, cpu.fs, cpu.es, cpu.ds]
      ensures (Mem(), sp as int) == PushAll(m0, top, pushed) && sp == old(sp) - 16
    {
      hide PushAll, Mem;
      ghost var tr := Push(cpu.gs, m0, top, trail);
      tr := Push(cpu.fs, m0, top, tr);
      tr := Push(cpu.es, m0, top, tr);
      pushed := Push(cpu.ds, m0, top, tr);
    }

    /** Everything pushed on the way into `_isr32`. */
    method SaveFrame() returns (ghost temp: Word)
      requires mem.Length == MAX_WORDS && FrameTop(cpu, esp0) >= FrameSize(cpu.cs) && FrameTop(cpu, esp0) % 4 == 0
      modifies mem, this`sp
      ensures (Mem(), sp as int) == PushAll(old(Mem()), FrameTop(cpu, esp0), Encode(cpu, temp))
      ensures sp == FrameTop(cpu, esp0) - FrameSize(cpu.cs)
    {
      hide PushAll, Mem;
      ghost var m0, top := Mem(), FrameTop(cpu, esp0);
      sp := FrameTop(cpu, esp0);
      ghost var tr := PushInterrupt(m0, top);
      temp := sp;
      tr := PushGeneral(m0, top, tr);
      tr := PushSegments(m0, top, tr);
      assert tr == Encode(cpu, temp);
    }

    // -------------------------------------------------------------- popping

    method Pop() returns (v: Word)
      requires mem.Length == MAX_WORDS && sp % 4 == 0 && sp + 4 < WORD_LIMIT
      modifies this`sp
      ensures v == Rd(Mem(), old(sp)) && sp == old(sp) + 4
    {
      hide View, Rd;
      ViewAt(mem[..], sp);
      v := mem[sp / 4];
      sp := sp + 4;
    }

    method PopSegments() returns (ds: Word, es: Word, fs: Word, gs: Word)
      requires mem.Length == MAX_WORDS && sp % 4 == 0 && sp + 16 < WORD_LIMIT
      modifies this`sp
      ensures sp == old(sp) + 16
      ensures ds == Rd(Mem(), old(sp)) && es == Rd(Mem(), old(sp) + 4)
      ensures fs == Rd(Mem(), old(sp) + 8) && gs == Rd(Mem(), old(sp) + 12)
    {
      hide Rd, Mem;
      ds := Pop();
      es := Pop();
      fs := Pop();
      gs := Pop();
    }

    /** `popa`, which skips the saved stack pointer */
    method PopGeneral() returns (edi: Word, esi: Word, ebp: Word, ebx: Word, edx: Word, ecx: Word, eax: Word)
      requires mem.Length == MAX_WORDS && sp % 4 == 0 && sp + 32 < WORD_LIMIT
      modifies this`sp
      ensures sp == old(sp) + 32
      ensures edi == Rd(Mem(), old(sp)) && esi == Rd(Mem(), old(sp) + 4) && ebp == Rd(Mem(), old(sp) + 8)
      ensures ebx == Rd(Mem(), old(sp) + 16) && edx == Rd(Mem(), old(sp) + 20)
      ensures ecx == Rd(Mem(), old(sp) + 24) && eax == Rd(Mem(), old(sp) + 28)
    {
      hide Rd, Mem;
      edi := Pop();
      esi := Pop();
      ebp := Pop();
      var ignored := Pop();
      ebx := Pop();
      edx := Pop();
      ecx := Pop();
      eax := Pop();
    }

    /** `iret` */
    method PopInterrupt() returns (eip: Word, cs: Word, eflags: Word, esp: Word, ss: Word)
      requires mem.Length == MAX_WORDS && sp % 4 == 0 && sp + 12 < WORD_LIMIT
      requires InUserMode(Rd(Mem(), sp + 4)) ==> sp + 20 < WORD_LIMIT
      modifies this`sp
      ensures eip == Rd(Mem(), old(sp)) && cs == Rd(Mem(), old(sp) + 4) && eflags == Rd(Mem(), old(sp) + 8)
      ensures InUserMode(cs) ==> esp == Rd(Mem(), old(sp) + 12) && ss == Rd(Mem(), old(sp) + 16)
      ensures !InUserMode(cs) ==> esp == old(sp) + 12 && ss == KERNEL_DATA
    {
      hide Rd, Mem;
      eip := Pop();
      cs := Pop();
      eflags := Pop();
      esp, ss := sp, KERNEL_DATA;
      if InUserMode(cs) {
        esp := Pop();
        ss := Pop();
      }
    }

    /** The pops at the end of `_isr32`, and `iret`. */
    method RestoreFrame()
      requires mem.Length == MAX_WORDS && sp % 4 == 0 && sp + KERNEL_FRAME < WORD_LIMIT
      requires InUserMode(Rd(Mem(), sp + 52)) ==> sp + USER_FRAME < WORD_LIMIT
      modifies this`sp, this`cpu
      ensures cpu == Decode(Mem(), old(sp))
    {
      hide Rd, Mem;
      var ds, es, fs, gs := PopSegments();
      var edi, esi, ebp, ebx, edx, ecx, eax := PopGeneral();
      var eip, cs, eflags, esp, ss := PopInterrupt();
      cpu := Cpu(eax, ecx, edx, ebx, ebp, esi, edi, ds, es, fs, gs, eip, cs, eflags, esp, ss);
    }

    // -------------------------------------------------------------- the timer interrupt

    /** The first half of the timer path: push the frame and let the handler store what it may. */
    method Park(scratch: map<nat, Word>)
      requires Valid()
      requires HandlerMay(threads.heap.State(), threads.table, threads.ctxs, threads.current, cpu, esp0, scratch)
      modifies mem, this`sp
      ensures threads.Valid() && Consistent(mem[..], threads.heap.State())
      ensures OthersKept(old(mem[..]), mem[..], threads.ctxs, threads.current)
      ensures var z := SlotOf(threads.ctxs, threads.current);
              && Parked(Mem(), z.(sp := sp), Snapshot(cpu, Mem()))
              && UpperKept(old(mem[..]), mem[..], z, FrameTop(cpu, esp0))
    {
      hide PushAll, Encode, Rd, Decode, Parked, View, SlotOf, Ownership, Consistent, Layout.AllLive, BootClear,
           TableIn, HandlerMay, Overwritten, UpperKept, OthersKept, Runnable, AllParked, InAddressSpace, Layout.Shape;
      ghost var m, s, cs, c := mem[..], threads.heap.State(), threads.ctxs, threads.current;
      ghost var z, top, table := SlotOf(cs, c), FrameTop(cpu, esp0), threads.table;
      threads.heap.Shaped();
      OwnedInHeap(cs, s.AllLive(), table);
      SlotState(cs, c);
      FrameFits(z, cpu, esp0);
      var temp := SaveFrame();
      ghost var m1 := mem[..];
      PushAllAt(View(m), top, Encode(cpu, temp));
      Scribble(scratch);
      ArenasEnd(m, s);
      ParkSparesHeap(m, m1, mem[..], s, table, cs, c, cpu, esp0, scratch, sp, top);
      ParkSparesTable(m, m1, mem[..], s, table, cs, c, cpu, esp0, scratch, sp, top);
      ParkSparesOthers(m, m1, mem[..], s, table, cs, c, cpu, esp0, scratch, sp, top);
      ParkSparesFrame(m, m1, mem[..], s, table, cs, c, cpu, esp0, scratch);
      ParkCurrent(View(m), View(m1), View(mem[..]), z, cpu, esp0, temp);
    }

    /** The handler's stores. */
    method Scribble(scratch: map<nat, Word>)
      modifies mem
      ensures Overwritten(old(mem[..]), mem[..], scratch)
    {
      forall w | 0 <= w < mem.Length && w in scratch {
        mem[w] := scratch[w];
      }
    }

    /** Store the stack pointer in the slot switched from, take that of the slot switched to. */
    method Switch(from: nat, to: nat)
      requires mem == threads.heap.mem && threads.Valid() && BootClear(threads.heap.State())
      requires threads.count == |saved| && from < |saved| && to < |saved| && from != to
      requires var cs := threads.ctxs;
               var slots, saved' := SlotsOf(cs[from := cs[from].(sp := sp)]), saved[from := Snapshot(cpu, Mem())];
               && AllInside(slots) && AllParked(Mem(), slots, to, saved')
               && InUse(cs, from) && cs[to].state == RoundRobin.Running && Parked(Mem(), SlotOf(cs, to), saved'[to])
               && Parked(Mem(), SlotOf(cs, from).(sp := sp), Snapshot(cpu, Mem()))
      modifies this`esp0, this`sp, this`saved, mem, threads`ctxs
      ensures threads.Valid()
      ensures saved == old(saved)[from := Snapshot(cpu, Mem())]
      ensures threads.ctxs == old(threads.ctxs)[from := old(threads.ctxs)[from].(sp := old(sp))]
      ensures sp == old(threads.ctxs)[to].sp
      ensures Sound(Mem(), saved[to].cpu, esp0, SlotsOf(threads.ctxs), to, saved)
      ensures CanResume(Mem(), sp, saved[to].cpu)
      ensures SameStacks(saved[to].mem, Mem(), SlotOf(threads.ctxs, to))
      ensures StacksSame(old(mem[..]), mem[..], old(threads.ctxs))
    {
      hide View, SlotOf, Parked, Ownership, Layout.AllLive, Layout.Shape, SameStacks, AllParked, AllInside, Decode, Rd,
           Runnable, InAddressSpace, Consistent, CanResume, TableIn, StacksSame, KeepsWords, KeepsOutside, BootClear;
      ghost var m, s, cs, live := mem[..], threads.heap.State(), threads.ctxs, threads.Others();
      threads.heap.KeptNow(live);
      IncludesSelf(live);
      esp0 := threads.Load(to, KSP);
      threads.Store(from, SP, sp, m, live);
      StoreKeepsParked(m, mem[..], s, live, cs, from, to, sp, cpu, saved);
      saved := saved[from := Snapshot(cpu, Mem())];
      ghost var now := threads.ctxs;
      SlotZeroRuns(cs, live);
      SameHolders(cs, now, live);
      SameSlot(cs, now, to);
      SwitchedSound(Mem(), now, to, saved, esp0);
      sp := threads.Load(to, SP);
    }

    /** The timer interrupt. */
    method Tick(scratch: map<nat, Word>)
      requires Valid()
      requires HandlerMay(threads.heap.State(), threads.table, threads.ctxs, threads.current, cpu, esp0, scratch)
      modifies this, mem, threads, threads.heap
      ensures Valid()
      ensures Table() == RoundRobin.Step(old(Table()), RoundRobin.Tick)
      ensures threads.current == old(threads.current) ==> cpu == old(cpu) && saved == old(saved)
      ensures threads.current != old(threads.current) ==>
        && cpu == old(saved)[threads.current].cpu
        && SameStacks(old(saved)[threads.current].mem, Mem(), SlotOf(threads.ctxs, threads.current))
        && saved == old(saved)[old(threads.current) := Snapshot(old(cpu), Mem())]
      ensures OthersKept(old(mem[..]), mem[..], threads.ctxs, old(threads.current))
      ensures UpperKept(old(mem[..]), mem[..], SlotOf(old(threads.ctxs), old(threads.current)),
                        FrameTop(old(cpu), old(esp0)))
      ensures var d := RoundRobin.Dist(Scheduler.States(old(threads.ctxs)), old(threads.current), 1);
              threads.Others() == old(threads.Others()) - Freed(old(threads.ctxs), old(threads.current), d)
    {
      hide View, SlotOf, SlotsOf, Sound, Parked, OthersKept, UpperKept, HandlerMay, Ownership, Consistent,
           Layout.AllLive, BootClear, TableIn, Freed, SameStacks, AllParked, AllInside, Decode, Rd, KeepsWords,
           KeepsOutside, Layout.Shape, RoundRobin.AfterCall, RoundRobin.NextThread, RoundRobin.Dist, Runnable,
           InAddressSpace;
      ghost var m0, cs, c := mem[..], threads.ctxs, threads.current;
      Park(scratch);
      ghost var m1, s := mem[..], threads.heap.State();
      var moved, from, to := threads.KthreadSchedule();
      ghost var m2, now := mem[..], threads.ctxs;
      threads.heap.Shaped();
      BootStaysClear(s, threads.heap.State());
      TickKeepsParked(m0, m1, m2, threads.heap.State(), threads.Others(), cs, now, c, cpu, esp0, saved, sp);
      UpperChain(m0, m1, m2, SlotOf(cs, c), FrameTop(cpu, esp0));
      if moved {
        ghost var sp0 := sp;
        SameSlot(cs, now, c);
        CurrentInUse(View(m0), cpu, esp0, cs, c, saved);
        Switch(from, to);
        SwitchSpares(m0, m2, mem[..], now, c, FrameTop(cpu, old(esp0)));
        OthersSame(m0, mem[..], now, c, sp0);
      } else {
        StayedSound(m0, m2, cs, now, c, cpu, esp0, saved, sp);
      }
      RestoreFrame();
    }

    // -------------------------------------------------------------- a new thread

    /** The argument, the null return address and the fabricated interrupt frame. */
    method PushEntry(thread: Word, arg: Word, priv: nat, top: Word) returns (ghost pushed: seq<Word>)
      requires mem.Length == MAX_WORDS && top >= 8 + USER_FRAME && top % 4 == 0
      modifies mem, this`sp
      ensures pushed == EntryWords(thread, arg, priv, top) && sp == top - 4 * |pushed|
      ensures (Mem(), sp as int) == PushAll(old(Mem()), top, pushed)
    {
      hide PushAll, Mem;
      ghost var m0 := Mem();
      var data, code := DataFor(priv), CodeFor(priv);
      sp := top;
      PushNothing(Mem(), sp);
      ghost var tr := Push(arg, m0, top, []);
      tr := Push(0, m0, top, tr);
      if priv != 0 {
        tr := Push(data, m0, top, tr);
        tr := Push(top - 8, m0, top, tr);
      }
      tr := Push(0x0202, m0, top, tr);
      tr := Push(code, m0, top, tr);
      pushed := Push(thread, m0, top, tr);
    }

    /** The same word several times. */
    method PushSame(n: nat, v: Word, ghost m0: Memory, ghost top: int, ghost trail: seq<Word>)
      returns (ghost pushed: seq<Word>)
      requires mem.Length == MAX_WORDS && sp >= 4 * n && sp % 4 == 0 && (Mem(), sp as int) == PushAll(m0, top, trail)
      modifies mem, this`sp
      ensures pushed == trail + seq<Word>(n, _ => v) && sp == old(sp) - 4 * n
      ensures (Mem(), sp as int) == PushAll(m0, top, pushed)
    {
      hide PushAll, Mem;
      pushed := trail;
      for i := 0 to n
        invariant sp == old(sp) - 4 * i && sp % 4 == 0
        invariant pushed == trail + seq<Word>(i, _ => v)
        invariant (Mem(), sp as int) == PushAll(m0, top, pushed)
      {
        pushed := Push(v, m0, top, pushed);
      }
    }

    /** The first words of a thread, stored downwards from the top of its stack. */
    method PushContext(thread: Word, arg: Word, priv: nat, top: Word) returns (s: Word)
      requires mem.Length == MAX_WORDS && top >= 8 + USER_FRAME && top % 4 == 0
      modifies mem, this`sp
      ensures (Mem(), s as int) == PushAll(old(Mem()), top, FirstWords(thread, arg, priv, top))
    {
      hide PushAll, FirstWords, Mem;
      ghost var m0 := Mem();
      var data := DataFor(priv);
      ghost var tr := PushEntry(thread, arg, priv, top);
      tr := PushSame(8, 0, m0, top, tr);
      tr := PushSame(4, data, m0, top, tr);
      FirstWordsAre(thread, arg, priv, top);
      return sp;
    }

    /** `kt_init_context`: the first words of the thread go on its stack, and the pointer below them into its slot. */
    method KtInitContext(fd: nat, priv: nat)
      requires mem == threads.heap.mem && mem.Length == MAX_WORDS && threads.Valid() && BootClear(threads.heap.State())
      requires IsNew(threads.ctxs, fd)
      modifies this`sp, mem, threads`ctxs
      ensures threads.Valid() && fd < threads.count
      ensures threads.ctxs == old(threads.ctxs)[fd := old(threads.ctxs)[fd].(sp := threads.ctxs[fd].sp)]
      ensures IsStarted(mem[..], threads.ctxs, fd, priv) && OthersKept(old(mem[..]), mem[..], old(threads.ctxs), fd)
    {
      hide View, SlotOf, Ownership, Consistent, Layout.AllLive, BootClear, Layout.Shape, OthersKept, PushAll,
           FirstWords, Decode, Rd, KeepsWords, KeepsOutside, Parked, SameStacks, IsFresh, TableIn, StacksSame,
           IsStarted, InAddressSpace;
      ghost var m, cs, s, live := mem[..], threads.ctxs, threads.heap.State(), threads.Others();
      threads.heap.Shaped();
      var thread := threads.Load(fd, THREAD);
      var arg := threads.Load(fd, ARG);
      var base := threads.Load(fd, STACK_BASE);
      var first := PushContext(thread, arg, priv, base + STACK_SIZE);
      ghost var m1 := mem[..];
      FirstFrame(m, m1, s, cs, fd, thread, arg, priv, first);
      FrameSpares(m, m1, s, threads.table, cs, fd, thread, arg, priv, first);
      threads.heap.KeptNow(live);
      IncludesSelf(live);
      threads.Store(fd, SP, first, m1, live);
      KeptStacks(m1, mem[..], s, live, cs);
      FreshStays(m1, mem[..], cs, fd, thread, arg, priv, first);
      Started(mem[..], cs, fd, priv, first);
      SlotZeroRuns(cs, live);
      SameHolders(cs, threads.ctxs, live);
      OthersJoin(m, m1, mem[..], cs, fd);
    }

    /** `kthread_create`: the new thread takes stacks from the heap and is parked as if it had been preempted at its
        very first instruction, with its argument on its stack above a null return address. */
    method Create(thread: Word, arg: Word, priv: nat) returns (r: int, fd: nat)
      requires Valid()
      requires RoomForStacks(threads.heap.State(), if priv != PRIV_KERNEL then 1 else 0)
      modifies this`sp, this`saved, mem, threads, threads.heap
      ensures Valid() && (r == 1 || r == 0)
      ensures r == 1 <==> forall t :: 0 <= t < threads.count ==>
                            old(threads.ctxs)[t].state != RoundRobin.Unused
      ensures r == 1 ==> threads.ctxs == old(threads.ctxs) && saved == old(saved)
      ensures r == 0 ==>
        && IsCreation(old(threads.ctxs), threads.ctxs, old(threads.heap.AllLive()), threads.heap.AllLive(), fd)
        && Steps(old(Table()), Table(), RoundRobin.Create(fd))
        && threads.ctxs[fd].thread == thread && threads.ctxs[fd].arg == arg
        && (threads.ctxs[fd].stackBase >= threads.heap.base[0] <==> priv == 0)
        && threads.ctxs[fd].kstackBase >= threads.heap.base[0]
        && IsStarted(mem[..], threads.ctxs, fd, priv)
        && saved == Joins(old(saved), mem[..], threads.ctxs, fd, priv) && |saved| == threads.count
        && EntersAt(Mem(), saved[fd].cpu, thread, arg, if priv == 0 then 0 else 3,
                    4 * threads.ctxs[fd].stackBase + STACK_SIZE)
      ensures OthersKept(old(mem[..]), mem[..], old(threads.ctxs), if r == 0 then fd else threads.current)
    {
      hide View, SlotOf, SlotsOf, Sound, Ownership, Consistent, Layout.AllLive, BootClear, Layout.Shape, OthersKept,
           RoomForStacks, IsCreation, KeepsWords, KeepsOutside, IsStarted, TableIn, IsNew, Steps, Joins, EntersAt;
      ghost var m0, s, cs, alive := mem[..], threads.heap.State(), threads.ctxs, threads.heap.AllLive();
      ghost var live, c := threads.Others(), threads.current;
      r, fd := threads.KthreadCreate(thread, arg, priv);
      ghost var m1, cs1, s1 := mem[..], threads.ctxs, threads.heap.State();
      threads.heap.Shaped();
      BootStaysClear(s, s1);
      if r == 1 {
        OthersOfKept(m0, m1, s1, cs, c, live);
        StillSound(m0, m1, cs, cpu, cpu, esp0, c, saved);
        return;
      }
      OwnedInHeap(cs1, s1.AllLive(), threads.table);
      SlotMade(cs, cs1, alive, m1, s1, fd);
      OthersOfKept(m0, m1, s1, cs, fd, live);
      KtInitContext(fd, priv);
      ghost var m2, cs2 := mem[..], threads.ctxs;
      CreationSteps(cs, cs1, cs2, alive, threads.heap.AllLive(), fd, c);
      OthersChain(m0, m1, m2, cs, cs1, fd);
      SoundSizes(m0, cpu, esp0, cs, c, saved);
      JoinsEnters(saved, m2, cs2, fd, priv);
      CreationSound(m0, m2, cs, cs2, fd, c, cpu, esp0, saved, priv);
      saved := Joins(saved, m2, cs2, fd, priv);
    }

    // -------------------------------------------------------------- what the current thread does

    /** The current thread runs: any registers it may be interrupted with, and any stores outside the stacks of the
        other threads and the heap's own words. */
    method Execute(next: Cpu, writes: map<nat, Word>)
      requires Valid() && Runnable(SlotOf(threads.ctxs, threads.current), next)
      requires ThreadMay(threads.heap.State(), threads.table, threads.ctxs, threads.current, writes)
      modifies mem, this`cpu
      ensures Valid() && cpu == next && Overwritten(old(mem[..]), mem[..], writes)
      ensures OthersKept(old(mem[..]), mem[..], threads.ctxs, threads.current)
    {
      hide View, SlotOf, Sound, Ownership, Consistent, Layout.AllLive, BootClear, Layout.Shape, Runnable, ThreadMay,
           OthersKept, Overwritten;
      ghost var m, s, cs := mem[..], threads.heap.State(), threads.ctxs;
      Scribble(writes);
      ArenasEnd(m, s);
      ThreadSparesHeap(m, mem[..], s, threads.table, cs, threads.current, writes);
      ThreadSparesTable(m, mem[..], s, threads.table, cs, threads.current, writes);
      ThreadSparesOthers(m, mem[..], s, threads.table, cs, threads.current, writes);
      StillSound(m, mem[..], cs, cpu, next, esp0, threads.current, saved);
      cpu := next;
    }

    /** The current thread allocates. */
    method Allocate(size: Word, flags: nat) returns (addr: nat)
      requires Valid() && flags < 256
      requires size == 0 || HasRoom(threads.heap.State(), ArenaFor(flags), RoundedWords(size))
      modifies mem, threads.heap
      ensures Valid()
      ensures size == 0 ==> addr == 0 && threads.heap.AllLive() == old(threads.heap.AllLive())
      ensures size != 0 ==>
        && addr !in old(threads.heap.AllLive()) && addr in threads.heap.AllLive()
        && RoundedWords(size) <= threads.heap.AllLive()[addr]
        && threads.heap.AllLive() == old(threads.heap.AllLive())[addr := threads.heap.AllLive()[addr]]
      ensures OthersKept(old(mem[..]), mem[..], threads.ctxs, threads.current)
    {
      hide View, SlotOf, Sound, Ownership, Consistent, Layout.AllLive, BootClear, Layout.Shape, Runnable, OthersKept,
           HasRoom, Allocated, Grant, Untouched, SetPresent, FlagsOf, Includes, TableIn;
      ghost var m, s, cs, live := mem[..], threads.heap.State(), threads.ctxs, threads.heap.AllLive();
      threads.heap.Shaped();
      addr := threads.heap.Kmalloc(size, flags);
      threads.heap.Shaped();
      BootStaysClear(s, threads.heap.State());
      TableSurvives(m, mem[..], s, threads.table, cs);
      OneMoreLive(live, threads.heap.AllLive(), addr, threads.table);
      MoreLive(cs, live - {threads.table}, threads.heap.AllLive() - {threads.table});
      OwnedInHeap(cs, live, threads.table);
      CallSparesOthers(m, mem[..], s, cs, threads.current, live);
      StillSound(m, mem[..], cs, cpu, cpu, esp0, threads.current, saved);
    }

    /** The current thread frees something that is neither a stack nor the table. */
    method Release(addr: nat)
      requires Valid() && addr in threads.Others()
      requires forall t: nat :: Holds(threads.ctxs, t) ==> addr !in StacksOf(threads.ctxs[t])
      modifies mem, threads.heap
      ensures Valid() && threads.heap.AllLive() == old(threads.heap.AllLive()) - {addr}
      ensures OthersKept(old(mem[..]), mem[..], threads.ctxs, threads.current)
    {
      hide View, SlotOf, Sound, Ownership, Consistent, Layout.AllLive, BootClear, Layout.Shape, Runnable, OthersKept,
           Released, Untouched, Present, StacksOf, TableIn;
      ghost var m, s, cs, live := mem[..], threads.heap.State(), threads.ctxs, threads.heap.AllLive();
      threads.heap.Shaped();
      threads.heap.Kfree(addr);
      threads.heap.Shaped();
      BootStaysClear(s, threads.heap.State());
      TableSurvives(m, mem[..], s, threads.table, cs);
      OneLessLive(cs, live - {threads.table}, addr);
      assert threads.Others() == live - {threads.table} - {addr};
      OwnedInHeap(cs, live, threads.table);
      CallSparesOthers(m, mem[..], s, cs, threads.current, live);
      StillSound(m, mem[..], cs, cpu, cpu, esp0, threads.current, saved);
    }

    /** `kthread_ret` */
    method Return(res: Word)
      requires Valid() && threads.current != 0
      modifies threads`ctxs, mem
      ensures Valid() && Table() == RoundRobin.Step(old(Table()), RoundRobin.Return)
      ensures threads.ctxs == old(threads.ctxs)[threads.current :=
                                old(threads.ctxs)[threads.current].(state := RoundRobin.Done, res := res)]
      ensures StacksSame(old(mem[..]), mem[..], threads.ctxs)
    {
      hide View, Ownership, Consistent, Layout.AllLive, BootClear, Layout.Shape, Runnable, SlotOf, InAddressSpace,
           Sound, TableIn, KeepsWords, KeepsOutside, StacksSame;
      ghost var m, cs, c := mem[..], threads.ctxs, threads.current;
      CurrentInUse(Mem(), cpu, esp0, cs, c, saved);
      threads.KthreadRet(res);
      KeptStacks(m, mem[..], threads.heap.State(), threads.Others(), cs);
      KeptStacks(m, mem[..], threads.heap.State(), threads.Others(), threads.ctxs);
      OthersAmong(m, mem[..], cs, c);
      StillSound(m, mem[..], cs, cpu, cpu, esp0, c, saved);
      FinishedSound(Mem(), cpu, esp0, cs, c, saved, res);
    }
  }

  lemma OthersAmong(m: seq<Word>, m': seq<Word>, cs: seq<Context>, c: nat)
    requires StacksSame(m, m', cs)
    ensures OthersKept(m, m', cs, c)
  {
    hide View, SameStacks, SlotOf;
    forall t | 0 <= t < |cs| && t != c && cs[t].state == RoundRobin.Running
      ensures SameStacks(View(m), View(m'), SlotOf(cs, t))
    {
      assert InUse(cs, t);
    }
  }

  /** The new thread starts at its function, with its argument above a null return address. */
  ghost predicate IsFresh(m: Memory, c: Context, thread: Word, arg: Word, priv: nat) {
    var top := 4 * c.stackBase + STACK_SIZE;
    && c.sp + KERNEL_FRAME < WORD_LIMIT && top < WORD_LIMIT
    && Decode(m, c.sp) == FreshCpu(thread, priv, top)
    && EntersAt(m, Decode(m, c.sp), thread, arg, if priv == 0 then 0 else 3, top)
  }

  /** A slot just created: in use, inside the address space, other than the current one. */
  lemma SlotMade(cs: seq<Context>, cs1: seq<Context>, live: map<nat, nat>, m1: seq<Word>, s1: Layout, fd: nat)
    requires Consistent(m1, s1) && Ownership(cs1, s1.AllLive()) && IsCreation(cs, cs1, live, s1.AllLive(), fd)
    ensures IsNew(cs1, fd)
  {
    OwnedStacksInside(s1, cs1, fd);
  }

  /** What the heap kept are the stacks of the threads there were. */
  lemma OthersOfKept(m: seq<Word>, m': seq<Word>, s: Layout, cs: seq<Context>, c: nat, live: map<nat, nat>)
    requires BootClear(s) && KeepsWords(m, m', live) && KeepsOutside(m, m', s) && Ownership(cs, live)
    ensures OthersKept(m, m', cs, c)
  {
    hide View, SameStacks, SlotOf, KeepsWords, KeepsOutside;
    forall t | 0 <= t < |cs| && t != c && cs[t].state == RoundRobin.Running
      ensures SameStacks(View(m), View(m'), SlotOf(cs, t))
    {
      if t > 0 { assert Holds(cs, t) && OwnsStacks(cs, live, t); }
      KeptStack(m, m', s, live, cs, t);
    }
  }

  /** The first frame of the new thread. */
  lemma FirstFrame(m1: seq<Word>, m2: seq<Word>, s1: Layout, cs1: seq<Context>, fd: nat, thread: Word, arg: Word,
                   priv: nat, first: Word)
    requires fd < |cs1| && fd != 0 && InAddressSpace(SlotOf(cs1, fd))
    requires cs1[fd].ksp == 4 * cs1[fd].kstackBase + STACK_SIZE
    requires var top := 4 * cs1[fd].stackBase + STACK_SIZE;
             && top < WORD_LIMIT
             && (View(m2), first as int) == PushAll(View(m1), top, FirstWords(thread, arg, priv, top))
    ensures var top := 4 * cs1[fd].stackBase + STACK_SIZE;
            && Parked(View(m2), SlotOf(cs1, fd).(sp := first), Snapshot(FreshCpu(thread, priv, top), View(m2)))
            && IsFresh(View(m2), cs1[fd].(sp := first), thread, arg, priv)
  {
    hide View, Decode, Rd, PushAll, FirstWords, Parked;
    var top := 4 * cs1[fd].stackBase + STACK_SIZE;
    FirstDispatch(View(m1), thread, arg, priv, top);
    SpDoesNotMatter(SlotOf(cs1, fd), first);
    FirstIsParked(View(m2), SlotOf(cs1, fd).(sp := first), thread, arg, priv);
  }

  /** It outlives the store of its stack pointer in the table. */
  lemma FreshStays(m: seq<Word>, m': seq<Word>, cs: seq<Context>, fd: nat, thread: Word, arg: Word, priv: nat,
                   first: Word)
    requires fd != 0 && InUse(cs, fd) && InAddressSpace(SlotOf(cs, fd)) && StacksSame(m, m', cs)
    requires var top := 4 * cs[fd].stackBase + STACK_SIZE;
             && top < WORD_LIMIT && IsFresh(View(m), cs[fd].(sp := first), thread, arg, priv)
             && Parked(View(m), SlotOf(cs, fd).(sp := first), Snapshot(FreshCpu(thread, priv, top), View(m)))
    ensures var top := 4 * cs[fd].stackBase + STACK_SIZE;
            && IsFresh(View(m'), cs[fd].(sp := first), thread, arg, priv)
            && Parked(View(m'), SlotOf(cs, fd).(sp := first), Snapshot(FreshCpu(thread, priv, top), View(m')))
  {
    hide View, Decode, Rd, Parked;
    var z, top := SlotOf(cs, fd).(sp := first), 4 * cs[fd].stackBase + STACK_SIZE;
    SpDoesNotMatter(SlotOf(cs, fd), first);
    SameRangeStacks(View(m), View(m'), SlotOf(cs, fd), first);
    ParkedAgain(View(m), View(m'), z, FreshCpu(thread, priv, top));
    ParkedResumes(View(m'), z, Snapshot(FreshCpu(thread, priv, top), View(m')));
    assert InStack(SlotOf(cs, fd), top - 8) && InStack(SlotOf(cs, fd), top - 4);
  }

  lemma SlotWithPointer(cs: seq<Context>, t: nat, sp: Word)
    requires t < |cs|
    ensures var now := cs[t := cs[t].(sp := sp)];
            && SlotOf(now, t) == SlotOf(cs, t).(sp := sp)
            && InAddressSpace(SlotOf(now, t)) == InAddressSpace(SlotOf(cs, t))
  {
  }

  /** Its stores spare the heap's words and every other stack. */
  lemma FrameSpares(m1: seq<Word>, m2: seq<Word>, s1: Layout, table: nat, cs1: seq<Context>, fd: nat, thread: Word,
                    arg: Word, priv: nat, first: Word)
    requires Consistent(m1, s1) && BootClear(s1) && InUse(cs1, fd) && fd != 0 && |m2| == |m1|
    requires table in s1.AllLive() && s1.AllLive()[table] >= SLOT_WORDS * |cs1| && TableIn(m1, table, cs1)
    requires Ownership(cs1, s1.AllLive() - {table})
    requires var top := 4 * cs1[fd].stackBase + STACK_SIZE;
             && top < WORD_LIMIT
             && (View(m2), first as int) == PushAll(View(m1), top, FirstWords(thread, arg, priv, top))
    ensures Consistent(m2, s1) && OthersKept(m1, m2, cs1, fd) && TableIn(m2, table, cs1)
  {
    hide View, Rd, PushAll, FirstWords, Ownership, Layout.HoldsMeta, Layout.AllLive, TableIn, Tiled, OthersKept,
         BootClear;
    var top, c := 4 * cs1[fd].stackBase + STACK_SIZE, FreshCpu(thread, priv, 4 * cs1[fd].stackBase + STACK_SIZE);
    FirstLength(thread, arg, priv, top);
    PushAllAt(View(m1), top, FirstWords(thread, arg, priv, top));
    assert WithinStack(SlotOf(cs1, fd), first, top);
    ArenasEnd(m1, s1);
    assert HandlerMay(s1, table, cs1, fd, c, 0, map[]) && Overwritten(m2, m2, map[]);
    OwnedInHeap(cs1, s1.AllLive(), table);
    ParkSparesTable(m1, m2, m2, s1, table, cs1, fd, c, 0, map[], first, top);
    ParkSparesHeap(m1, m2, m2, s1, table, cs1, fd, c, 0, map[], first, top);
    ParkSparesOthers(m1, m2, m2, s1, table, cs1, fd, c, 0, map[], first, top);
  }

  /** The table after a creation, however the stack pointer is then set. */
  lemma CreationSteps(cs: seq<Context>, cs1: seq<Context>, cs2: seq<Context>, live: map<nat, nat>,
                      live': map<nat, nat>, fd: nat, c: nat)
    requires IsCreation(cs, cs1, live, live', fd) && c < |cs|
    requires |cs2| == |cs1| && fd < |cs2| && cs2 == cs1[fd := cs1[fd].(sp := cs2[fd].sp)]
    ensures IsCreation(cs, cs2, live, live', fd)
    ensures Steps(RoundRobin.System(Scheduler.States(cs), c), RoundRobin.System(Scheduler.States(cs2), c),
                  RoundRobin.Create(fd))
    ensures |cs2| == |cs| && cs[fd].state == RoundRobin.Unused
    ensures forall t :: 0 <= t < |cs| && t != fd ==> cs1[t] == cs[t] && cs2[t] == cs[t]
  {
  }

  lemma OthersJoin(m0: seq<Word>, m1: seq<Word>, m2: seq<Word>, cs: seq<Context>, c: nat)
    requires OthersKept(m0, m1, cs, c) && StacksSame(m1, m2, cs)
    ensures OthersKept(m0, m2, cs, c)
  {
    OthersAmong(m1, m2, cs, c);
    OthersChain(m0, m1, m2, cs, cs, c);
  }

  lemma OthersChain(m0: seq<Word>, m1: seq<Word>, m2: seq<Word>, cs: seq<Context>, cs1: seq<Context>, c: nat)
    requires OthersKept(m0, m1, cs, c) && OthersKept(m1, m2, cs1, c) && |cs1| == |cs|
    requires forall t :: 0 <= t < |cs| && t != c ==> cs1[t] == cs[t]
    ensures OthersKept(m0, m2, cs, c)
  {
    hide View, SameStacks, SlotOf;
    forall t | 0 <= t < |cs| && t != c && cs[t].state == RoundRobin.Running
      ensures SameStacks(View(m0), View(m2), SlotOf(cs, t))
    {
      SameSlot(cs, cs1, t);
      SameStacksChain(View(m0), View(m1), View(m2), SlotOf(cs, t));
    }
  }

  lemma SoundSizes(m: seq<Word>, cpu: Cpu, esp0: Word, cs: seq<Context>, c: nat, saved: seq<Snapshot>)
    requires Sound(View(m), cpu, esp0, SlotsOf(cs), c, saved)
    ensures |saved| == |cs|
  {
  }

  /** Those registers make it enter its function as it should. */
  lemma JoinsEnters(saved: seq<Snapshot>, m: seq<Word>, cs: seq<Context>, fd: nat, priv: nat)
    requires IsStarted(m, cs, fd, priv) && |saved| == |cs|
    ensures var now := Joins(saved, m, cs, fd, priv);
            && |now| == |cs|
            && EntersAt(View(m), now[fd].cpu, cs[fd].thread, cs[fd].arg, if priv == 0 then 0 else 3,
                        4 * cs[fd].stackBase + STACK_SIZE)
  {
    hide View, Decode, Rd, Parked, EntersAt;
  }

  lemma BootSound(m: Memory, cs: seq<Context>, cpu: Cpu, esp0: Word, saved: seq<Snapshot>)
    requires |saved| == |cs| > 0 && cs[0].state == RoundRobin.Running
    requires forall t :: 0 < t < |cs| ==> cs[t].state == RoundRobin.Unused
    requires !InUserMode(cpu.cs) && cpu.ss == KERNEL_DATA && cpu.esp % 4 == 0
    requires BOOT_STACK + KERNEL_FRAME <= cpu.esp <= BOOT_STACK_END
    ensures Sound(m, cpu, esp0, SlotsOf(cs), 0, saved)
  {
    hide Parked;
    forall t | 0 <= t < |cs| ensures SlotOf(cs, t).state == cs[t].state {
    }
  }

  /** A slot whose stacks are made and whose first frame is not. */
  ghost predicate IsNew(cs: seq<Context>, fd: nat) {
    && InUse(cs, fd) && fd != 0 && InAddressSpace(SlotOf(cs, fd))
    && 4 * cs[fd].stackBase + STACK_SIZE < WORD_LIMIT && cs[fd].ksp == 4 * cs[fd].kstackBase + STACK_SIZE
  }

  /** A thread parked at its very first instruction. */
  ghost predicate IsStarted(m: seq<Word>, cs: seq<Context>, fd: nat, priv: nat) {
    && fd < |cs| && 4 * cs[fd].stackBase + STACK_SIZE < WORD_LIMIT
    && InAddressSpace(SlotOf(cs, fd)) && IsFresh(View(m), cs[fd], cs[fd].thread, cs[fd].arg, priv)
    && Parked(View(m), SlotOf(cs, fd),
              Snapshot(FreshCpu(cs[fd].thread, priv, 4 * cs[fd].stackBase + STACK_SIZE), View(m)))
  }

  lemma Started(m: seq<Word>, cs: seq<Context>, fd: nat, priv: nat, first: Word)
    requires IsNew(cs, fd) && IsFresh(View(m), cs[fd].(sp := first), cs[fd].thread, cs[fd].arg, priv)
    requires Parked(View(m), SlotOf(cs, fd).(sp := first),
                    Snapshot(FreshCpu(cs[fd].thread, priv, 4 * cs[fd].stackBase + STACK_SIZE), View(m)))
    ensures IsStarted(m, cs[fd := cs[fd].(sp := first)], fd, priv)
  {
    hide View, Parked, IsFresh;
    SlotWithPointer(cs, fd, first);
  }

  /** The table takes a step of the scheduling rules that is open to it. */
  ghost predicate Steps(before: RoundRobin.System, after: RoundRobin.System, e: RoundRobin.Event) {
    RoundRobin.Possible(before, e) && after == RoundRobin.Step(before, e)
  }

  /** The new thread counts as having left the processor with the registers of its first frame. */
  ghost function Joins(saved: seq<Snapshot>, m: seq<Word>, cs: seq<Context>, fd: nat, priv: nat): seq<Snapshot> {
    if fd < |saved| && fd < |cs| && 4 * cs[fd].stackBase + STACK_SIZE < WORD_LIMIT then
      saved[fd := Snapshot(FreshCpu(cs[fd].thread, priv, 4 * cs[fd].stackBase + STACK_SIZE), View(m))]
    else saved
  }

  lemma CreationSound(m0: seq<Word>, m2: seq<Word>, cs: seq<Context>, cs2: seq<Context>, fd: nat, c: nat, cpu: Cpu,
                      esp0: Word, saved: seq<Snapshot>, priv: nat)
    requires Sound(View(m0), cpu, esp0, SlotsOf(cs), c, saved) && OthersKept(m0, m2, cs, fd)
    requires fd < |cs| == |cs2| && cs[fd].state == RoundRobin.Unused
    requires forall t :: 0 <= t < |cs| && t != fd ==> cs2[t] == cs[t]
    requires IsStarted(m2, cs2, fd, priv)
    ensures fd != c && Sound(View(m2), cpu, esp0, SlotsOf(cs2), c, Joins(saved, m2, cs2, fd, priv))
  {
    hide View, SameStacks, SlotOf, Parked, InAddressSpace, Runnable;
    var top := 4 * cs2[fd].stackBase + STACK_SIZE;
    var snap := Snapshot(FreshCpu(cs2[fd].thread, priv, top), View(m2));
    SlotState(cs, fd);
    SlotState(cs, c);
    var before, slots := SlotsOf(cs), SlotsOf(cs2);
    forall t | 0 <= t < |cs| && t != fd ensures slots[t] == before[t] {
      SameSlot(cs, cs2, t);
    }
    assert slots == before[fd := slots[fd]];
    forall t | 0 <= t < |cs| && t != c && before[t].state == RoundRobin.Running
      ensures SameStacks(View(m0), View(m2), before[t])
    {
      SlotState(cs, t);
    }
    ArrivalKeepsParked(View(m0), View(m2), before, slots, c, saved, snap, fd, cpu, esp0);
  }

  /** Words a running thread may store: none of the heap's own and none of the stack of another thread. */
  ghost predicate ThreadMay(s: Layout, table: nat, cs: seq<Context>, c: nat, writes: map<nat, Word>)
    requires s.Shape() && c < |cs|
  {
    forall w: nat :: w in writes ==>
      && !s.HoldsMeta(w) && !InTable(table, |cs|, w)
      && forall t :: 0 <= t < |cs| && t != c && cs[t].state == RoundRobin.Running ==> !InStack(SlotOf(cs, t), 4 * w)
  }

  lemma ThreadSparesHeap(m: seq<Word>, m': seq<Word>, s: Layout, table: nat, cs: seq<Context>, c: nat,
                         writes: map<nat, Word>)
    requires Consistent(m, s) && c < |cs| && ThreadMay(s, table, cs, c, writes) && Overwritten(m, m', writes)
    ensures Consistent(m', s)
  {
    hide Layout.HoldsMeta, SlotOf, Tiled;
    StoresKeepHeap(m, m', s);
  }

  lemma ThreadSparesTable(m: seq<Word>, m': seq<Word>, s: Layout, table: nat, cs: seq<Context>, c: nat,
                          writes: map<nat, Word>)
    requires s.Shape() && c < |cs| && TableIn(m, table, cs)
    requires ThreadMay(s, table, cs, c, writes) && Overwritten(m, m', writes)
    ensures TableIn(m', table, cs)
  {
    hide Layout.HoldsMeta, SlotOf, TableIn;
    TableKept(m, m', table, cs);
  }

  lemma ThreadSparesOthers(m: seq<Word>, m': seq<Word>, s: Layout, table: nat, cs: seq<Context>, c: nat,
                           writes: map<nat, Word>)
    requires s.Shape() && c < |cs| && ThreadMay(s, table, cs, c, writes) && Overwritten(m, m', writes)
    ensures OthersKept(m, m', cs, c)
  {
    hide Layout.HoldsMeta, SlotOf, Rd, View;
    forall t | 0 <= t < |cs| && t != c && cs[t].state == RoundRobin.Running
      ensures SameStacks(View(m), View(m'), SlotOf(cs, t))
    {
      var z := SlotOf(cs, t);
      SameCells(m, m', z.base, z.base + z.len);
      SameCells(m, m', z.kbase, z.kbase + z.klen);
    }
  }

  /** A heap call leaves the stacks of threads alone, if they were live before it. */
  lemma CallSparesOthers(m: seq<Word>, m': seq<Word>, s: Layout, cs: seq<Context>, c: nat, live: map<nat, nat>)
    requires BootClear(s) && Untouched(m, m', s) && live == s.AllLive() && Ownership(cs, live)
    ensures OthersKept(m, m', cs, c)
  {
    NothingChanged(m, live, s);
    CallKeepsWords(m, m, m', s, live, live);
    CallKeepsOutside(m, m, m', s, s);
    hide View, SameStacks, SlotOf, KeepsWords, KeepsOutside, Untouched, Layout.AllLive;
    forall t | 0 <= t < |cs| && t != c && cs[t].state == RoundRobin.Running
      ensures SameStacks(View(m), View(m'), SlotOf(cs, t))
    {
      ScheduleSparesStacks(m, m', s, live, cs, t);
    }
  }

  lemma StillSound(m: seq<Word>, m': seq<Word>, cs: seq<Context>, cpu: Cpu, next: Cpu, esp0: Word, c: nat,
                   saved: seq<Snapshot>)
    requires Sound(View(m), cpu, esp0, SlotsOf(cs), c, saved) && OthersKept(m, m', cs, c)
    requires c < |cs| && (next == cpu || Runnable(SlotOf(cs, c), next))
    ensures Sound(View(m'), next, esp0, SlotsOf(cs), c, saved)
  {
    hide View, SameStacks, SlotOf, Runnable, AllParked, AllInside;
    forall t | 0 <= t < |cs| ensures SlotOf(cs, t).state == cs[t].state { SlotState(cs, t); }
    StoresKeepSound(View(m), View(m'), cpu, next, esp0, SlotsOf(cs), c, saved);
  }

  lemma OneMoreLive(live: map<nat, nat>, live': map<nat, nat>, addr: nat, table: nat)
    requires live' == live || (addr !in live && addr in live' && live' == live[addr := live'[addr]])
    ensures Includes(live' - {table}, live - {table})
  {
  }

  lemma MoreLive(cs: seq<Context>, live: map<nat, nat>, live': map<nat, nat>)
    requires Ownership(cs, live) && Includes(live', live)
    ensures Ownership(cs, live')
  {
    forall t: nat | Holds(cs, t) ensures OwnsStacks(cs, live', t) {
      assert OwnsStacks(cs, live, t);
    }
  }

  lemma OneLessLive(cs: seq<Context>, live: map<nat, nat>, addr: nat)
    requires Ownership(cs, live) && forall t: nat :: Holds(cs, t) ==> addr !in StacksOf(cs[t])
    ensures Ownership(cs, live - {addr})
  {
    forall t: nat | Holds(cs, t) ensures OwnsStacks(cs, live - {addr}, t) {
      assert OwnsStacks(cs, live, t) && addr !in StacksOf(cs[t]);
      assert cs[t].stackBase in StacksOf(cs[t]) && cs[t].kstackBase in StacksOf(cs[t]);
    }
  }

  lemma CurrentInUse(m: Memory, cpu: Cpu, esp0: Word, cs: seq<Context>, c: nat, saved: seq<Snapshot>)
    requires Sound(m, cpu, esp0, SlotsOf(cs), c, saved)
    ensures InUse(cs, c)
  {
    SlotState(cs, c);
  }

  lemma FinishedSound(m: Memory, cpu: Cpu, esp0: Word, cs: seq<Context>, c: nat, saved: seq<Snapshot>, res: Word)
    requires Sound(m, cpu, esp0, SlotsOf(cs), c, saved) && c != 0
    ensures c < |cs|
    ensures Sound(m, cpu, esp0, SlotsOf(cs[c := cs[c].(state := RoundRobin.Done, res := res)]), c, saved)
  {
    hide Parked, InAddressSpace;
    var now := cs[c := cs[c].(state := RoundRobin.Done, res := res)];
    var slots, slots' := SlotsOf(cs), SlotsOf(now);
    forall t | 0 <= t < |cs| && t != c ensures slots'[t] == slots[t] {
      SameSlot(cs, now, t);
    }
    assert slots'[c] == slots[c].(state := RoundRobin.Done);
    StateDoesNotMatter(slots[c], cpu);
  }

  lemma StateDoesNotMatter(s: Slot, c: Cpu)
    ensures InAddressSpace(s.(state := RoundRobin.Done)) == InAddressSpace(s)
    ensures Runnable(s.(state := RoundRobin.Done), c) == Runnable(s, c)
  {
  }

  lemma SameSlot(cs: seq<Context>, now: seq<Context>, t: nat)
    requires t < |cs| && t < |now| && now[t] == cs[t]
    ensures SlotOf(now, t) == SlotOf(cs, t)
  {
    if t == 0 { assert now[0] == cs[0]; }
  }

  /** The frame at `sp` can be popped, and pops to `c`. */
  ghost predicate CanResume(m: Memory, sp: Word, c: Cpu) {
    && sp % 4 == 0 && sp + KERNEL_FRAME < WORD_LIMIT
    && (InUserMode(Rd(m, sp + 52)) ==> sp + USER_FRAME < WORD_LIMIT)
    && Decode(m, sp) == c
  }

  lemma ResumesAt(m: Memory, s: Slot, snap: Snapshot)
    requires Parked(m, s, snap) && InAddressSpace(s)
    ensures CanResume(m, s.sp, snap.cpu) && Runnable(s, snap.cpu) && SameStacks(snap.mem, m, s)
  {
    hide Parked, SameStacks, Rd, Decode, Runnable;
    ParkedResumes(m, s, snap);
  }

  /** After a switch to `n` the machine is sound with `n` on the processor. */
  lemma SwitchedSound(m: Memory, cs: seq<Context>, n: nat, saved: seq<Snapshot>, esp0: Word)
    requires n < |cs| == |saved| && cs[n].state == RoundRobin.Running && esp0 == cs[n].ksp
    requires AllInside(SlotsOf(cs)) && AllParked(m, SlotsOf(cs), n, saved) && Parked(m, SlotOf(cs, n), saved[n])
    ensures Sound(m, saved[n].cpu, esp0, SlotsOf(cs), n, saved)
    ensures CanResume(m, cs[n].sp, saved[n].cpu) && SameStacks(saved[n].mem, m, SlotOf(cs, n))
  {
    hide Parked, SameStacks, Rd, Decode, Runnable, CanResume, InAddressSpace, AllParked;
    SlotState(cs, n);
    assert SlotsOf(cs)[n] == SlotOf(cs, n);
    ResumesAt(m, SlotOf(cs, n), saved[n]);
  }

  /** Without a switch the machine is sound as it was, and the frame just pushed brings the same registers back. */
  lemma StayedSound(m0: seq<Word>, m: seq<Word>, cs: seq<Context>, now: seq<Context>, c: nat, cpu: Cpu, esp0: Word,
                    saved: seq<Snapshot>, sp: Word)
    requires Sound(View(m0), cpu, esp0, SlotsOf(cs), c, saved) && |now| == |cs| && now[c] == cs[c]
    requires AllInside(SlotsOf(now)) && AllParked(View(m), SlotsOf(now), c, saved)
    requires Parked(View(m), SlotOf(now, c).(sp := sp), Snapshot(cpu, View(m)))
    ensures Sound(View(m), cpu, esp0, SlotsOf(now), c, saved) && CanResume(View(m), sp, cpu)
  {
    hide View, Parked, SameStacks, Rd, Decode, Runnable, CanResume, InAddressSpace, AllParked, SlotOf;
    SameSlot(cs, now, c);
    SlotState(cs, c);
    SpDoesNotMatter(SlotOf(now, c), sp);
    ResumesAt(View(m), SlotOf(now, c).(sp := sp), Snapshot(cpu, View(m)));
  }

  lemma OthersSame(m: seq<Word>, m': seq<Word>, cs: seq<Context>, c: nat, sp: Word)
    requires c < |cs| && OthersKept(m, m', cs, c)
    ensures OthersKept(m, m', cs[c := cs[c].(sp := sp)], c)
  {
    hide View, SameStacks, SlotOf;
    var now := cs[c := cs[c].(sp := sp)];
    forall t | 0 <= t < |now| && t != c && now[t].state == RoundRobin.Running
      ensures SameStacks(View(m), View(m'), SlotOf(now, t))
    {
      SameSlot(cs, now, t);
    }
  }

  lemma BootStaysClear(s: Layout, s': Layout)
    requires BootClear(s) && s'.Shape() && s'.base == s.base && s'.limit == s.limit
    ensures BootClear(s')
  {
  }

  lemma UpperChain(m0: seq<Word>, m1: seq<Word>, m2: seq<Word>, s: Slot, top: int)
    requires UpperKept(m0, m1, s, top) && SameStacks(View(m1), View(m2), s)
    ensures UpperKept(m0, m2, s, top)
  {
    hide Rd, View;
  }

  lemma PushNothing(m: Memory, sp: int)
    ensures PushAll(m, sp, []) == (m, sp)
  {
  }

  lemma ArenasEnd(m: seq<Word>, s: Layout)
    requires Consistent(m, s)
    ensures s.Shape() && s.limit[0] <= |m| <= MAX_WORDS
  {
  }
}
