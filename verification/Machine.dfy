/** Threads on and off the processor: what it takes for a thread off it to resume as it left, and what keeps that. */
module Machine {
  import opened Words
  import opened Frames
  import RoundRobin

  const STACK_SIZE := 16384

  /** A thread slot with the byte ranges of its two stacks. */
  datatype Slot = Slot(state: RoundRobin.TState, base: nat, len: nat, kbase: nat, klen: nat, sp: Word, ksp: Word)

  predicate InStack(s: Slot, a: int) {
    s.base <= a < s.base + s.len || s.kbase <= a < s.kbase + s.klen
  }

  predicate Disjoint(s: Slot, t: Slot) {
    && (s.base + s.len <= t.base || t.base + t.len <= s.base)
    && (s.base + s.len <= t.kbase || t.kbase + t.klen <= s.base)
    && (s.kbase + s.klen <= t.base || t.base + t.len <= s.kbase)
    && (s.kbase + s.klen <= t.kbase || t.kbase + t.klen <= s.kbase)
  }

  /** `[lo, hi)` lies in one of the stacks. */
  predicate WithinStack(s: Slot, lo: int, hi: int) {
    (s.base <= lo && hi <= s.base + s.len) || (s.kbase <= lo && hi <= s.kbase + s.klen)
  }

  /** What was true of a thread when it last left the processor. */
  datatype Snapshot = Snapshot(cpu: Cpu, mem: Memory)

  /** Where the processor pushes when interrupted. */
  function FrameTop(c: Cpu, esp0: Word): Word { if InUserMode(c.cs) then esp0 else c.esp }

  function States(slots: seq<Slot>): (s: seq<RoundRobin.TState>)
    ensures |s| == |slots|
    ensures forall t {:trigger s[t]} :: 0 <= t < |slots| ==> s[t] == slots[t].state
  {
    seq<RoundRobin.TState>(|slots|, (t: nat) requires t < |slots| => slots[t].state)
  }

  ghost predicate SameStacks(m: Memory, m': Memory, s: Slot) {
    forall a :: InStack(s, a) ==> Rd(m', a) == Rd(m, a)
  }

  /** A thread off the processor: its stacks are as it left them, and the frame at its saved pointer, inside
      them, decodes to the registers it left with. */
  ghost predicate Parked(m: Memory, s: Slot, snap: Snapshot) {
    && SameStacks(snap.mem, m, s)
    && s.sp + KERNEL_FRAME < WORD_LIMIT && s.sp % 4 == 0
    && WithinStack(s, s.sp, s.sp + FrameSize(snap.cpu.cs))
    && Rd(snap.mem, s.sp + 52) == snap.cpu.cs
    && Decode(snap.mem, s.sp) == snap.cpu
    && Runnable(s, snap.cpu)
  }

  /** A processor state a thread may be interrupted in: room for the frame on the stack that takes it, at a
      multiple of four. Threads with a kernel stack may run in user mode; its top is what the processor switches
      to. */
  predicate Runnable(s: Slot, c: Cpu) {
    if InUserMode(c.cs) then
      s.klen >= USER_FRAME && s.ksp == s.kbase + s.klen && s.ksp % 4 == 0
    else
      c.ss == KERNEL_DATA && c.esp % 4 == 0 && WithinStack(s, c.esp - KERNEL_FRAME, c.esp)
  }

  predicate InAddressSpace(s: Slot) {
    && s.base + s.len < WORD_LIMIT && s.kbase + s.klen < WORD_LIMIT
    && (s.base + s.len <= s.kbase || s.kbase + s.klen <= s.base)
  }

  ghost predicate Sound(m: Memory, cpu: Cpu, esp0: Word, slots: seq<Slot>, current: nat, saved: seq<Snapshot>) {
    && current < |slots| == |saved|
    && slots[current].state != RoundRobin.Unused
    && Runnable(slots[current], cpu)
    && (slots[current].klen > 0 ==> esp0 == slots[current].ksp)
    && AllInside(slots)
    && AllParked(m, slots, current, saved)
  }

  /** The stacks of slots in use lie in the address space. */
  ghost predicate AllInside(slots: seq<Slot>) {
    forall t :: 0 <= t < |slots| && slots[t].state != RoundRobin.Unused ==> InAddressSpace(slots[t])
  }

  ghost predicate AllParked(m: Memory, slots: seq<Slot>, current: nat, saved: seq<Snapshot>)
    requires |slots| == |saved|
  {
    forall t :: 0 <= t < |slots| && t != current && slots[t].state == RoundRobin.Running ==>
      Parked(m, slots[t], saved[t])
  }

  // ---------------------------------------------------------------- one preemption

  /** The bottom of the stack whose top part ends at `top`. */
  function Bottom(s: Slot, top: int): nat {
    if s.kbase < top <= s.kbase + s.klen then s.kbase else s.base
  }

  lemma FrameFits(s: Slot, c: Cpu, esp0: Word)
    requires Runnable(s, c) && InAddressSpace(s) && (s.klen > 0 ==> esp0 == s.ksp)
    ensures var top, size := FrameTop(c, esp0), FrameSize(c.cs);
            && Bottom(s, top) + size <= top && WithinStack(s, Bottom(s, top), top)
            && WithinStack(s, top - size, top)
            && top - size + KERNEL_FRAME < WORD_LIMIT && top % 4 == 0
            && (InUserMode(c.cs) || (top == c.esp && c.ss == KERNEL_DATA))
  {
  }

  /** After the pushes, and whatever the handler does that spares the frame, the thread is parked. */
  lemma ParkCurrent(m: Memory, m1: Memory, m2: Memory, s: Slot, c: Cpu, esp0: Word, temp: Word)
    requires Runnable(s, c) && InAddressSpace(s) && (s.klen > 0 ==> esp0 == s.ksp)
    requires var top := FrameTop(c, esp0);
             && m1 == PushAll(m, top, Encode(c, temp)).0
             && forall a :: top - FrameSize(c.cs) <= a < top ==> Rd(m2, a) == Rd(m1, a)
    ensures var top := FrameTop(c, esp0);
            var sp := top - FrameSize(c.cs);
            && 0 <= sp < WORD_LIMIT
            && PushAll(m, top, Encode(c, temp)).1 == sp
            && Parked(m2, s.(sp := sp), Snapshot(c, m2))
  {
    hide PushAll, Encode, Rd;
    FrameFits(s, c, esp0);
    var top := FrameTop(c, esp0);
    SaveThenRestore(m, top, c, temp);
    PushAllAt(m, top, Encode(c, temp));
    var sp := top - FrameSize(c.cs);
    assert Decode(m1, sp) == c;
    assert Rd(m1, sp + 52) == c.cs;
    DecodeDependsOnFrame(m1, m2, sp);
    assert Rd(m2, sp + 52) == c.cs;
  }

  /** A thread stays parked as long as its stacks are left alone. */
  lemma StaysParked(m: Memory, m': Memory, t: Slot, snap: Snapshot)
    requires Parked(m, t, snap) && SameStacks(m, m', t)
    ensures Parked(m', t, snap)
  {
    hide Rd, Decode, Runnable;
  }

  /** A thread parked with a memory as its own record of it is so with any that agrees on its stacks. */
  lemma ParkedAgain(m: Memory, m': Memory, s: Slot, c: Cpu)
    requires Parked(m, s, Snapshot(c, m)) && SameStacks(m, m', s)
    ensures Parked(m', s, Snapshot(c, m'))
  {
    hide Rd, Runnable;
    forall a | s.sp <= a < s.sp + FrameSize(Rd(m, s.sp + 52)) ensures Rd(m', a) == Rd(m, a) {
      assert InStack(s, a);
    }
    DecodeDependsOnFrame(m, m', s.sp);
    assert InStack(s, s.sp + 52);
  }

  /** Popping a parked frame brings back exactly the registers the thread left with. */
  lemma ParkedResumes(m: Memory, s: Slot, snap: Snapshot)
    requires Parked(m, s, snap) && InAddressSpace(s)
    ensures Decode(m, s.sp) == snap.cpu && Runnable(s, snap.cpu) && s.sp % 4 == 0
    ensures SameStacks(snap.mem, m, s)
    ensures s.sp + KERNEL_FRAME < WORD_LIMIT
    ensures Rd(m, s.sp + 52) == snap.cpu.cs && s.sp + FrameSize(snap.cpu.cs) < WORD_LIMIT
  {
    hide Rd, Runnable;
    forall a | s.sp <= a < s.sp + FrameSize(Rd(snap.mem, s.sp + 52)) ensures Rd(m, a) == Rd(snap.mem, a) {
      assert InStack(s, a);
    }
    DecodeDependsOnFrame(snap.mem, m, s.sp);
  }

  // ---------------------------------------------------------------- the whole table

  /** Stores that spare the stacks of all threads off the processor keep the machine sound. */
  lemma StoresKeepSound(m: Memory, m': Memory, cpu: Cpu, next: Cpu, esp0: Word, slots: seq<Slot>, c: nat,
                        saved: seq<Snapshot>)
    requires Sound(m, cpu, esp0, slots, c, saved) && Runnable(slots[c], next)
    requires forall t :: 0 <= t < |slots| && t != c && slots[t].state == RoundRobin.Running ==>
               SameStacks(m, m', slots[t])
    ensures Sound(m', next, esp0, slots, c, saved)
  {
    hide Parked, Runnable, InAddressSpace, SameStacks;
    forall t | 0 <= t < |slots| && t != c && slots[t].state == RoundRobin.Running
      ensures Parked(m', slots[t], saved[t])
    {
      StaysParked(m, m', slots[t], saved[t]);
    }
  }

  /** What a scheduler call does to the slots. */
  ghost predicate AfterSchedule(before: seq<Slot>, slots: seq<Slot>, c: nat) {
    && c < |before| == |slots|
    && States(slots) == RoundRobin.AfterCall(States(before), c)
    && forall t :: 0 <= t < |slots| ==> slots[t] == before[t].(state := slots[t].state)
  }

  /** While the current thread is being parked, every other thread stays parked, reclaimed slots drop out, and
      the current one joins them; the next one is among them. */
  lemma SwitchKeepsParked(m: Memory, m': Memory, before: seq<Slot>, slots: seq<Slot>, c: nat, saved: seq<Snapshot>,
                          cpu: Cpu, esp0: Word, sp: Word)
    requires Sound(m, cpu, esp0, before, c, saved) && AfterSchedule(before, slots, c)
    requires forall t :: 0 <= t < |slots| && t != c && slots[t].state == RoundRobin.Running ==>
               SameStacks(m, m', slots[t])
    requires Parked(m', before[c].(sp := sp), Snapshot(cpu, m'))
    ensures slots[c] == before[c] && AllInside(slots) && AllParked(m', slots, c, saved)
    ensures var slots', saved' := slots[c := slots[c].(sp := sp)], saved[c := Snapshot(cpu, m')];
            && AllInside(slots')
            && (forall n :: AllParked(m', slots', n, saved'))
            && var n := RoundRobin.NextThread(States(before), c);
            n != c ==>
              slots'[n].state == RoundRobin.Running && slots'[n] == slots[n] && Parked(m', slots'[n], saved'[n])
  {
    hide Rd, Decode, Parked, Runnable, SameStacks, RoundRobin.NextThread, RoundRobin.AfterCall, InAddressSpace;
    RoundRobin.OnlyFinishedOthersReaped(States(before), c, RoundRobin.NextThread(States(before), c));
    forall t | 0 <= t < |slots|
      ensures slots[t].state != RoundRobin.Unused ==> slots[t] == before[t]
    {
      RoundRobin.OnlyFinishedOthersReaped(States(before), c, t);
      assert States(slots)[t] == RoundRobin.AfterCall(States(before), c)[t];
    }
    forall t | 0 <= t < |slots| && t != c && slots[t].state == RoundRobin.Running
      ensures Parked(m', slots[t], saved[t])
    {
      StaysParked(m, m', before[t], saved[t]);
    }
    assert slots[c] == before[c] by { CurrentStays(before, slots, c); }
    var n := RoundRobin.NextThread(States(before), c);
    assert States(slots)[n] == RoundRobin.AfterCall(States(before), c)[n];
    var inside := slots[c := slots[c].(sp := sp)];
    forall t | 0 <= t < |slots| && inside[t].state != RoundRobin.Unused ensures InAddressSpace(inside[t]) {
      SpDoesNotMatter(slots[t], sp);
    }
  }

  lemma CurrentStays(before: seq<Slot>, slots: seq<Slot>, c: nat)
    requires AfterSchedule(before, slots, c)
    ensures slots[c] == before[c]
  {
    assert States(slots)[c] == RoundRobin.AfterCall(States(before), c)[c];
  }

  lemma SpDoesNotMatter(s: Slot, sp: Word)
    ensures InAddressSpace(s.(sp := sp)) == InAddressSpace(s)
  {
  }

  // ---------------------------------------------------------------- a new thread

  function EntryWords(thread: Word, arg: Word, priv: nat, top: Word): seq<Word>
    requires top >= 8
  {
    [arg, 0] + (if priv != 0 then [DataFor(priv), top - 8] else []) + [0x0202, CodeFor(priv), thread]
  }

  lemma FirstWordsAre(thread: Word, arg: Word, priv: nat, top: Word)
    requires top >= 8
    ensures FirstWords(thread, arg, priv, top) ==
            EntryWords(thread, arg, priv, top) + seq<Word>(8, _ => 0) + seq<Word>(4, _ => DataFor(priv))
  {
    var d := DataFor(priv);
    assert seq<Word>(8, _ => 0) == [0, 0, 0, 0, 0, 0, 0, 0];
    assert seq<Word>(4, _ => d) == [d, d, d, d];
    assert InUserMode(CodeFor(priv)) <==> priv != 0;
  }

  lemma FirstLength(thread: Word, arg: Word, priv: nat, top: Word)
    requires top >= 8
    ensures |FirstWords(thread, arg, priv, top)| == (if priv == 0 then 17 else 19)
    ensures FrameSize(CodeFor(priv)) == if priv == 0 then KERNEL_FRAME else USER_FRAME
  {
  }

  lemma FirstIsParked(m: Memory, s: Slot, thread: Word, arg: Word, priv: nat)
    requires InAddressSpace(s) && s.len == STACK_SIZE && s.klen == STACK_SIZE && s.ksp == s.kbase + STACK_SIZE
    requires s.base % 4 == 0 && s.kbase % 4 == 0
    requires var top := s.base + STACK_SIZE;
             s.sp == top - 8 - FrameSize(CodeFor(priv)) && Decode(m, s.sp) == FreshCpu(thread, priv, top)
    ensures Parked(m, s, Snapshot(FreshCpu(thread, priv, s.base + STACK_SIZE), m))
  {
    assert Decode(m, s.sp).cs == Rd(m, s.sp + 52);
  }

  /** A new thread disturbs nobody if the stacks of the others are left alone. */
  lemma ArrivalKeepsParked(m: Memory, m': Memory, before: seq<Slot>, slots: seq<Slot>, c: nat, saved: seq<Snapshot>,
                           snap: Snapshot, t: nat, cpu: Cpu, esp0: Word)
    requires Sound(m, cpu, esp0, before, c, saved) && t < |before| && t != c && before[t].state == RoundRobin.Unused
    requires |slots| == |before| && slots == before[t := slots[t]]
    requires InAddressSpace(slots[t]) && Parked(m', slots[t], snap)
    requires forall u :: 0 <= u < |before| && u != c && before[u].state == RoundRobin.Running ==>
               SameStacks(m, m', before[u])
    ensures Sound(m', cpu, esp0, slots, c, saved[t := snap])
  {
    hide Rd, Decode, Parked, Runnable, SameStacks, InAddressSpace;
    forall u | 0 <= u < |slots| && u != c && slots[u].state == RoundRobin.Running
      ensures Parked(m', slots[u], saved[t := snap][u])
    {
      if u != t { StaysParked(m, m', before[u], saved[u]); }
    }
  }
}
