/** Thread slots, their stacks in the kernel heap, and the scheduler that reclaims them. */
module Scheduler {
  import opened Words
  import opened Arithmetic
  import opened HeapMemory
  import opened HeapState
  import opened Kmalloc
  import opened RoundRobin
  import opened ThreadTable

  const THREAD_STACK_SIZE: Word := 16384
  const STACK_WORDS := 4096
  const PRIV_KERNEL := 0

  const KERNEL_STACK: Word := 0xC001_0000   // KSTACK_BASE

  function States(cs: seq<Context>): (s: seq<TState>)
    ensures |s| == |cs|
    ensures forall t {:trigger s[t]} :: 0 <= t < |cs| ==> s[t] == cs[t].state
  {
    seq<TState>(|cs|, (t: nat) requires t < |cs| => cs[t].state)
  }

  /** Slot `t` holds stacks. Slot 0 is the kernel itself and has none in the heap. */
  predicate Holds(cs: seq<Context>, t: nat) {
    0 < t < |cs| && cs[t].state != Unused
  }

  /** The stack blocks of a slot. */
  function StacksOf(c: Context): set<nat> { {c.stackBase, c.kstackBase} }

  ghost predicate OwnsStacks(cs: seq<Context>, live: map<nat, nat>, t: nat)
    requires t < |cs|
  {
    && cs[t].stackBase != cs[t].kstackBase
    && cs[t].stackBase in live && live[cs[t].stackBase] >= STACK_WORDS
    && cs[t].kstackBase in live && live[cs[t].kstackBase] >= STACK_WORDS
  }

  /** Every slot in use owns two live blocks of its own. */
  ghost predicate Ownership(cs: seq<Context>, live: map<nat, nat>) {
    && |cs| > 0 && cs[0].state == Running
    && (forall t: nat :: Holds(cs, t) ==> OwnsStacks(cs, live, t))
    && (forall t: nat, u: nat :: Holds(cs, t) && Holds(cs, u) && t != u ==> StacksOf(cs[t]) !! StacksOf(cs[u]))
  }

  /** The blocks of the slots a scheduler call has reclaimed up to distance `k`. */
  ghost function Freed(cs: seq<Context>, c: nat, k: nat): set<nat>
    requires c < |cs| && k <= |cs|
  {
    set j, p | 1 <= j < k && cs[RoundRobin.Ahead(|cs|, c, j)].state == Done
               && p in StacksOf(cs[RoundRobin.Ahead(|cs|, c, j)]) :: p
  }

  /** Neither of the two stack allocations overruns an arena. */
  ghost predicate RoomForStacks(s: Layout, arena: nat)
    requires s.Shape() && arena < 2
  {
    && HasRoom(s, arena, STACK_WORDS)
    && var s1 := Allocated(s, arena, STACK_WORDS);
    s1.Shape() && HasRoom(s1, 0, STACK_WORDS)
  }

  /** One new live payload of stack size. */
  ghost predicate NewStack(live: map<nat, nat>, live': map<nat, nat>, base: nat) {
    && base !in live && base in live' && live'[base] >= STACK_WORDS && live' == live[base := live'[base]]
    && base + STACK_WORDS < MAX_WORDS
  }

  lemma FreshInside(live: map<nat, nat>, live': map<nat, nat>, base: nat, kbase: nat)
    requires FreshStacks(live, live', base, kbase)
    ensures base + STACK_WORDS < MAX_WORDS && kbase + STACK_WORDS < MAX_WORDS
  {
  }

  lemma IncludesSelf(live: map<nat, nat>)
    ensures Includes(live, live)
  {
  }

  lemma IncludesFewer(live: map<nat, nat>, p: nat)
    ensures Includes(live, live - {p})
  {
  }

  lemma StackAdds(live: map<nat, nat>, live': map<nat, nat>, base: nat)
    requires NewStack(live, live', base)
    ensures Includes(live', live)
  {
  }

  lemma TwoStacks(live: map<nat, nat>, live1: map<nat, nat>, live2: map<nat, nat>, base: nat, kbase: nat)
    requires NewStack(live, live1, base) && NewStack(live1, live2, kbase)
    ensures FreshStacks(live, live2, base, kbase)
  {
  }

  /** Two new live payloads of stack size, and no other change in what is live. */
  ghost predicate FreshStacks(live: map<nat, nat>, live': map<nat, nat>, base: nat, kbase: nat) {
    && base !in live && kbase !in live && base != kbase
    && base in live' && live'[base] >= STACK_WORDS && kbase in live' && live'[kbase] >= STACK_WORDS
    && live' == live[base := live'[base]][kbase := live'[kbase]]
    && base + STACK_WORDS < MAX_WORDS && kbase + STACK_WORDS < MAX_WORDS
  }

  /** The first unused slot `fd` has become a running thread on two blocks that were not live before. The stack
      pointer of its first frame is still to be set. */
  ghost predicate IsCreation(cs: seq<Context>, cs': seq<Context>, live: map<nat, nat>, live': map<nat, nat>, fd: nat) {
    && 0 < fd < |cs| && cs[fd].state == Unused && (forall t :: 0 <= t < fd ==> cs[t].state != Unused)
    && |cs'| == |cs| && cs' == cs[fd := cs'[fd]]
    && var c := cs'[fd];
    && c.state == Running && StacksOf(c) !! live.Keys && live'.Keys == live.Keys + StacksOf(c)
    && c.ksp == 4 * c.kstackBase + THREAD_STACK_SIZE
  }

  /** Blocks that are new to the heap are new to what it holds besides the table. */
  lemma FreshBesides(live: map<nat, nat>, live': map<nat, nat>, base: nat, kbase: nat, table: nat)
    requires FreshStacks(live, live', base, kbase) && table in live
    ensures FreshStacks(live - {table}, live' - {table}, base, kbase)
    ensures table in live' && live'[table] == live[table]
    ensures Includes(live' - {table}, live - {table})
  {
  }

  lemma NewLive(cs: seq<Context>, cs': seq<Context>, kept: map<nat, nat>, live: map<nat, nat>, live': map<nat, nat>,
                fd: nat, table: nat)
    requires IsCreation(cs, cs', kept, live' - {table}, fd) && kept == live - {table}
    requires fd < |cs'| && FreshStacks(live, live', cs'[fd].stackBase, cs'[fd].kstackBase)
    ensures IsCreation(cs, cs', live, live', fd)
  {
  }

  class Threads {
    const heap: Heap
    const table: nat            // ctx_buf
    const count: nat            // max_t
    var current: nat            // c_thread
    var hasThread: bool
    ghost var ctxs: seq<Context>

    /** The table lies in a live payload of the heap. */
    ghost predicate InPlace()
      reads this, heap, heap.mem
    {
      && heap.Valid() && |ctxs| == count
      && table in heap.AllLive() && heap.AllLive()[table] >= SLOT_WORDS * count
      && TableIn(heap.mem[..], table, ctxs)
    }

    /** The payloads other than the table. */
    ghost function Others(): map<nat, nat>
      reads this, heap, heap.mem
      requires heap.Valid()
    {
      heap.AllLive() - {table}
    }

    ghost predicate Valid()
      reads this, heap, heap.mem
    {
      InPlace() && current < count && Ownership(ctxs, Others())
    }

    /** `_kthread_init` */
    constructor (h: Heap, n: nat)
      requires h.Valid() && 0 < n && 32 * n <= 0xFFFF_FFF8 && HasRoom(h.State(), 0, SLOT_WORDS * n)
      modifies h, h.mem
      ensures Valid() && fresh(this) && heap == h && count == n && current == 0
      ensures ctxs == StartTable(n) && !hasThread && 4 * ctxs[0].stackBase == 0xC001_0000
      ensures table !in old(h.AllLive()) && Others() == old(h.AllLive())
      ensures h.Kept(old(h.Words()), old(h.AllLive()))
      ensures h.base == old(h.base) && h.limit == old(h.limit)
    {
      hide Consistent, Layout.AllLive, Layout.Shape, HeapState.HasRoom, Allocated, Grant, Untouched, SetPresent,
           FlagsOf, KeepsWords, KeepsOutside, TableIn, RoundedWords, Ownership;
      WordsOfTable(n);
      ghost var m, s, live := h.mem[..], h.State(), h.AllLive();
      h.Shaped();
      h.KeptNow(live);
      IncludesSelf(live);
      var at := h.Kmalloc(32 * n, 0);
      heap, table, count, current, hasThread := h, at, n, 0, false;
      ctxs := seq<Context>(n, _ => Blank());
      new;
      heap.StillKept(m, m, s, live, live);
      ClearTable(m, live);
      SetState(0, Running, m, live);
      Store(0, STACK_BASE, KERNEL_STACK, m, live);
      assert ctxs == StartTable(n);
      OnlyKernelRuns(n, live);
      assert Others() == live;
    }

    /** `memset(ctx_buf, 0, …)` */
    method ClearTable(ghost m0: seq<Word>, ghost kept: map<nat, nat>)
      requires heap.Valid() && table in heap.AllLive() && heap.AllLive()[table] >= SLOT_WORDS * count
      requires heap.Kept(m0, kept) && Includes(Others(), kept)
      modifies this`ctxs, heap.mem
      ensures InPlace() && heap.Kept(m0, kept) && ctxs == seq<Context>(count, _ => Blank())
    {
      hide Consistent, Layout.AllLive, Layout.Shape, Layout.HoldsMeta, KeepsWords, KeepsOutside, TableIn;
      ghost var m, s := heap.mem[..], heap.State();
      TableInside(m, s, table);
      forall w | table <= w < table + SLOT_WORDS * count {
        heap.mem[w] := 0;
      }
      ClearedTable(m, heap.mem[..], s, table, count, m0, kept);
      ZerosAreBlank(heap.mem[..], table, count);
      ctxs := seq<Context>(count, _ => Blank());
    }

    /** One word of a slot. */
    method Load(t: nat, field: nat) returns (v: Word)
      requires InPlace() && t < count && field < SLOT_WORDS
      ensures SlotIn(heap.mem[..], table + SLOT_WORDS * t, ctxs[t])
      ensures v == heap.mem[..][table + SLOT_WORDS * t + field]
    {
      hide TableIn;
      SlotAt(heap.mem[..], table, ctxs, t);
      v := heap.mem[table + SLOT_WORDS * t + field];
    }

    /** Compare the state byte of a slot. */
    method HasState(t: nat, s: TState) returns (b: bool)
      requires InPlace() && t < count
      ensures b <==> ctxs[t].state == s
    {
      hide TableIn;
      var v := Load(t, STATE);
      b := v % 0x100 == Code(s);
    }

    /** Store one word of a slot. Of the payloads other than the table, what has not changed since the heap was `m0`
        still has not. */
    method Store(t: nat, field: nat, v: Word, ghost m0: seq<Word>, ghost kept: map<nat, nat>)
      requires InPlace() && t < count && field < SLOT_WORDS && field != STATE
      requires field == STACK_BASE || field == KSTACK_BASE ==> v % 4 == 0
      requires heap.Kept(m0, kept) && Includes(Others(), kept)
      modifies this`ctxs, heap.mem
      ensures InPlace() && ctxs == old(ctxs)[t := With(old(ctxs)[t], field, v)]
      ensures heap.Kept(m0, kept)
    {
      hide Consistent, Layout.AllLive, Layout.Shape, TableIn, KeepsWords, KeepsOutside, Includes, With;
      ghost var c := With(ctxs[t], field, v);
      FieldStored(heap.mem[..], table, ctxs, t, field, v);
      StoreInTable(heap.mem[..], heap.State(), table, count, table + SLOT_WORDS * t + field, v, m0, kept);
      heap.mem[table + SLOT_WORDS * t + field] := v;
      ctxs := ctxs[t := c];
    }

    method SetState(t: nat, s: TState, ghost m0: seq<Word>, ghost kept: map<nat, nat>)
      requires InPlace() && t < count
      requires heap.Kept(m0, kept) && Includes(Others(), kept)
      modifies this`ctxs, heap.mem
      ensures InPlace() && ctxs == old(ctxs)[t := old(ctxs)[t].(state := s)]
      ensures heap.Kept(m0, kept)
    {
      hide Consistent, Layout.AllLive, Layout.Shape, TableIn, KeepsWords, KeepsOutside, Includes, Code;
      ghost var c := ctxs[t].(state := s);
      var w := table + SLOT_WORDS * t + STATE;
      StateStored(heap.mem[..], table, ctxs, t, s);
      var v := heap.mem[w] / 0x100 * 0x100 + Code(s);
      StoreInTable(heap.mem[..], heap.State(), table, count, w, v, m0, kept);
      heap.mem[w] := v;
      ctxs := ctxs[t := c];
    }

    /** A new thread takes the first unused slot and two stacks nobody else owns. */
    method KthreadCreate(thread: Word, arg: Word, priv: nat) returns (r: int, fd: nat)
      requires Valid()
      requires RoomForStacks(heap.State(), if priv != PRIV_KERNEL then 1 else 0)
      modifies this`hasThread, this`ctxs, heap, heap.mem
      ensures Valid()
      ensures r == 1 || r == 0
      ensures r == 1 <==> forall t :: 0 <= t < count ==> old(ctxs)[t].state != Unused
      ensures r == 1 ==> ctxs == old(ctxs) && heap.AllLive() == old(heap.AllLive())
      ensures hasThread == (r == 0 || old(hasThread))
      ensures r == 0 ==> IsCreation(old(ctxs), ctxs, old(heap.AllLive()), heap.AllLive(), fd)
                         && ctxs[fd].thread == thread && ctxs[fd].arg == arg
                         && (ctxs[fd].stackBase >= heap.base[0] <==> priv == 0) && ctxs[fd].kstackBase >= heap.base[0]
      ensures heap.Kept(old(heap.Words()), old(Others()))
      ensures heap.base == old(heap.base) && heap.limit == old(heap.limit)
    {
      hide Consistent, Layout.AllLive, Ownership, Layout.Shape, HeapState.HasRoom, RoomForStacks, Allocated,
           Heap.Kept, Heap.Words, IsCreation, FreshStacks, TableIn, Includes;
      ghost var m0, cs, live, kept := heap.Words(), ctxs, heap.AllLive(), Others();
      heap.KeptNow(kept);
      fd := FindUnused();
      if fd >= count {
        return 1, fd;
      }
      SlotZeroRuns(cs, kept);
      var base, kbase := AllocStacks(if priv != PRIV_KERNEL then MEM_USER else 0);
      FreshInside(live, heap.AllLive(), base, kbase);
      FreshBesides(live, heap.AllLive(), base, kbase, table);
      IncludesFewer(live, table);
      heap.KeptLess(m0, live, kept);
      FillSlot(fd, thread, arg, base, kbase, m0, kept);
      NewOwner(cs, kept, Others(), fd, ctxs[fd]);
      NewLive(cs, ctxs, kept, live, heap.AllLive(), fd, table);
      hasThread := true;
      return 0, fd;
    }

    /** The stores into the slot of a new thread. */
    method FillSlot(t: nat, thread: Word, arg: Word, base: nat, kbase: nat, ghost m0: seq<Word>,
                    ghost kept: map<nat, nat>)
      requires InPlace() && t < count && base + STACK_WORDS < MAX_WORDS && kbase + STACK_WORDS < MAX_WORDS
      requires heap.Kept(m0, kept) && Includes(Others(), kept)
      modifies this`ctxs, heap.mem
      ensures InPlace() && heap.Kept(m0, kept)
      ensures ctxs == old(ctxs)[t := Context(thread, Running, arg, old(ctxs)[t].res, base, kbase,
                                             4 * base + THREAD_STACK_SIZE, 4 * kbase + THREAD_STACK_SIZE)]
    {
      hide Consistent, Layout.AllLive, Heap.Kept, Heap.Words, TableIn, Includes;
      Store(t, THREAD, thread, m0, kept);
      SetState(t, Running, m0, kept);
      Store(t, ARG, arg, m0, kept);
      Store(t, STACK_BASE, 4 * base, m0, kept);
      Store(t, KSTACK_BASE, 4 * kbase, m0, kept);
      Store(t, SP, 4 * base + THREAD_STACK_SIZE, m0, kept);
      Store(t, KSP, 4 * kbase + THREAD_STACK_SIZE, m0, kept);
    }

    method FindUnused() returns (t: nat)
      requires InPlace()
      ensures t <= count && forall u :: 0 <= u < t ==> ctxs[u].state != Unused
      ensures t < count ==> ctxs[t].state == Unused
    {
      hide Consistent, TableIn;
      for i := 0 to count
        invariant forall u :: 0 <= u < i ==> ctxs[u].state != Unused
      {
        var unused := HasState(i, Unused);
        if unused {
          return i;
        }
      }
      return count;
    }

    /** The two stack allocations: both succeed, being of positive size. */
    method AllocStacks(flags: nat) returns (base: nat, kbase: nat)
      requires InPlace() && flags in {0, MEM_USER}
      requires RoomForStacks(heap.State(), ArenaFor(flags))
      modifies heap, heap.mem
      ensures InPlace()
      ensures FreshStacks(old(heap.AllLive()), heap.AllLive(), base, kbase)
      ensures (base >= heap.base[0] <==> flags / 4 % 2 == 0) && kbase >= heap.base[0]
      ensures heap.Kept(old(heap.Words()), old(heap.AllLive()))
      ensures heap.base == old(heap.base) && heap.limit == old(heap.limit)
    {
      hide Consistent, Layout.AllLive, Layout.Shape, HeapState.HasRoom, Allocated, Heap.Kept, Heap.Words, NewStack,
           FreshStacks, Includes, TableIn;
      ghost var m, live := heap.Words(), heap.AllLive();
      heap.KeptNow(live);
      IncludesSelf(live);
      base := AllocStack(flags, m, live);
      ghost var live1 := heap.AllLive();
      StackAdds(live, live1, base);
      kbase := AllocStack(0, m, live);
      TwoStacks(live, live1, heap.AllLive(), base, kbase);
    }

    /** One stack. Whatever has not changed since the heap was `m0` still has not. */
    method AllocStack(flags: nat, ghost m0: seq<Word>, ghost kept: map<nat, nat>) returns (base: nat)
      requires InPlace() && flags in {0, MEM_USER} && HeapState.HasRoom(heap.State(), ArenaFor(flags), STACK_WORDS)
      requires heap.Kept(m0, kept) && Includes(heap.AllLive(), kept)
      modifies heap, heap.mem
      ensures InPlace() && heap.State() == Allocated(old(heap.State()), ArenaFor(flags), STACK_WORDS)
      ensures NewStack(old(heap.AllLive()), heap.AllLive(), base)
      ensures base >= heap.base[0] <==> flags / 4 % 2 == 0
      ensures heap.Kept(m0, kept) && heap.base == old(heap.base) && heap.limit == old(heap.limit)
    {
      hide Consistent, Layout.AllLive, HeapState.HasRoom, Allocated, Grant, Untouched, SetPresent, FlagsOf,
           Layout.Shape, KeepsWords, KeepsOutside, TableIn;
      ghost var m, s := heap.Words(), heap.State();
      heap.Shaped();
      base := heap.Kmalloc(THREAD_STACK_SIZE, flags);
      TableSurvives(m, heap.mem[..], s, table, ctxs);
      IncludesSelf(kept);
      heap.StillKept(m0, m, s, kept, kept);
      LiveBelow(heap.mem[..], heap.State(), base);
    }

    /** Free one payload other than the table. */
    method FreeStack(addr: nat, ghost m0: seq<Word>, ghost kept: map<nat, nat>)
      requires InPlace() && addr in Others() && heap.Kept(m0, kept) && Includes(Others(), kept)
      modifies heap, heap.mem
      ensures InPlace() && heap.AllLive() == old(heap.AllLive()) - {addr} && Others() == old(Others()) - {addr}
      ensures heap.Kept(m0, kept) && heap.base == old(heap.base) && heap.limit == old(heap.limit)
    {
      hide Consistent, Layout.AllLive, Untouched, Layout.Shape, Released, Present, KeepsWords, KeepsOutside, TableIn;
      ghost var m, s := heap.Words(), heap.State();
      heap.Shaped();
      heap.Kfree(addr);
      TableSurvives(m, heap.mem[..], s, table, ctxs);
      IncludesSelf(kept);
      heap.StillKept(m0, m, s, kept, kept);
      assert heap.AllLive() - {table} == (s.AllLive() - {table}) - {addr};
    }

    /** Reclaim one finished slot: free its stacks and mark it unused. Of the payloads that stay live, what has
        not changed since the heap was `m0` still has not. */
    method Reclaim(t: nat, ghost m0: seq<Word>)
      requires InPlace() && Ownership(ctxs, Others()) && Holds(ctxs, t) && ctxs[t].state == Done
      requires heap.Kept(m0, Others())
      modifies this`ctxs, heap, heap.mem
      ensures InPlace() && Ownership(ctxs, Others())
      ensures ctxs == old(ctxs)[t := old(ctxs)[t].(state := Unused)]
      ensures Others() == old(Others()) - StacksOf(old(ctxs)[t])
      ensures heap.Kept(m0, Others()) && heap.base == old(heap.base) && heap.limit == old(heap.limit)
    {
      hide Consistent, Layout.AllLive, Ownership, Layout.Shape, StacksOf, Heap.Kept, Heap.Words, TableIn;
      ghost var cs, live := ctxs, Others();
      OldOwner(cs, live, t);
      ghost var kept := live - StacksOf(cs[t]);
      heap.KeptLess(m0, live, kept);
      var base := Load(t, STACK_BASE);
      FreeStack(base / 4, m0, kept);
      var kbase := Load(t, KSTACK_BASE);
      FreeStack(kbase / 4, m0, kept);
      SetState(t, Unused, m0, kept);
    }

    /** Look at the slot at distance `k + 1` and reclaim it if it is finished. */
    method Visit(tn: nat, ghost cs: seq<Context>, ghost live: map<nat, nat>, ghost c: nat, ghost k: nat,
                 ghost m0: seq<Word>)
      requires Valid() && current == c && heap.Kept(m0, Others())
      requires |cs| == count && Passed(cs, ctxs, c, k) && k + 1 < |cs| && tn == Ahead(|cs|, c, k + 1)
      requires Others() == live - Freed(cs, c, k + 1)
      modifies this`ctxs, heap, heap.mem
      ensures Valid() && heap.Kept(m0, Others())
      ensures heap.base == old(heap.base) && heap.limit == old(heap.limit)
      ensures Passed(cs, ctxs, c, k + 1)
      ensures Others() == live - Freed(cs, c, k + 2)
    {
      hide Consistent, Layout.AllLive, Ownership, Layout.Shape, Passed, Freed, Heap.Kept, TableIn;
      PassStep(cs, ctxs, c, k);
      var done := HasState(tn, Done);
      if done {
        SlotZeroRuns(ctxs, Others());
        Reclaim(tn, m0);
      }
    }

    /** Pick the next running thread in cyclic order, reclaiming every finished thread passed on the way. */
    method KthreadSchedule() returns (moved: bool, from: nat, to: nat)
      requires Valid()
      modifies this`current, this`ctxs, heap, heap.mem
      ensures Valid()
      ensures States(ctxs) == AfterCall(States(old(ctxs)), old(current))
      ensures forall t :: 0 <= t < count ==> ctxs[t] == old(ctxs)[t].(state := ctxs[t].state)
      ensures current == NextThread(States(old(ctxs)), old(current))
      ensures moved <==> current != old(current)
      ensures moved ==> from == old(current) && to == current
      ensures var d := Dist(States(old(ctxs)), old(current), 1);
              Others() == old(Others()) - Freed(old(ctxs), old(current), d)
      ensures heap.Kept(old(heap.Words()), Others())
      ensures heap.base == old(heap.base) && heap.limit == old(heap.limit)
    {
      hide Consistent, Layout.AllLive, Ownership, Layout.Shape, Passed, Freed, AfterCall, Dist, Heap.Kept, Heap.Words,
           TableIn;
      ghost var m0 := heap.Words();
      heap.KeptNow(Others());
      ghost var cs, live, n, c := ctxs, Others(), count, current;
      moved, from, to := false, current, current;
      PassStart(cs, c);
      var tn, i := current, 0;
      var runs := HasState(tn, Running);
      while !runs || tn == current
        invariant Valid() && current == c && i < n && tn == Ahead(n, c, i)
        invariant runs <==> ctxs[tn].state == Running
        invariant forall j :: 1 <= j < i ==> cs[Ahead(n, c, j)].state != Running
        invariant Passed(cs, ctxs, c, i)
        invariant Others() == live - Freed(cs, c, i + 1)
        invariant heap.Kept(m0, Others()) && heap.base == old(heap.base) && heap.limit == old(heap.limit)
        decreases n - i
      {
        PassHere(cs, ctxs, c, i);
        tn := (tn + 1) % count;
        i := i + 1;
        if i >= count {
          ScheduleEnds(cs, ctxs, c, n);
          return;
        }
        Visit(tn, cs, live, c, i - 1, m0);
        runs := HasState(tn, Running);
      }
      PassHere(cs, ctxs, c, i);
      ScheduleEnds(cs, ctxs, c, i);
      moved, to := true, tn;
      current := tn;
    }

    /** `kthread_ret`: the current thread, which is not the kernel, is finished. */
    method KthreadRet(res: Word)
      requires Valid() && current != 0 && ctxs[current].state != Unused
      modifies this`ctxs, heap.mem
      ensures Valid() && ctxs == old(ctxs)[current := old(ctxs)[current].(state := Done, res := res)]
      ensures heap.Kept(old(heap.Words()), Others())
    {
      hide Consistent, Layout.AllLive, Heap.Kept, Heap.Words, TableIn;
      ghost var cs, m0, kept := ctxs, heap.Words(), Others();
      heap.KeptNow(kept);
      IncludesSelf(kept);
      SetState(current, Done, m0, kept);
      Store(current, RES, res, m0, kept);
      SameHolders(cs, ctxs, kept);
    }
  }

  /** The table after start-up: the kernel is thread 0. */
  function StartTable(n: nat): seq<Context>
    requires n > 0
  {
    seq<Context>(n, _ => Blank())[0 := Blank().(state := Running, stackBase := KERNEL_STACK / 4)]
  }

  lemma WordsOfTable(n: nat)
    requires 32 * n <= 0xFFFF_FFF8
    ensures RoundedWords(32 * n) == SLOT_WORDS * n
  {
    DivMod(4 * n, 8, 7);
  }

  lemma OnlyKernelRuns(n: nat, live: map<nat, nat>)
    requires n > 0
    ensures Ownership(StartTable(n), live)
  {
  }

  lemma TableInside(m: seq<Word>, s: Layout, table: nat)
    requires Consistent(m, s) && table in s.AllLive()
    ensures s.Shape() && table + s.AllLive()[table] <= |m|
  {
    LiveBelow(m, s, table);
  }

  /** Clearing the table spares the heap's own words and every other payload. */
  lemma ClearedTable(m: seq<Word>, m': seq<Word>, s: Layout, table: nat, n: nat, m0: seq<Word>, kept: map<nat, nat>)
    requires Consistent(m, s) && table in s.AllLive() && s.AllLive()[table] >= SLOT_WORDS * n && |m'| == |m|
    requires forall w :: 0 <= w < |m| && !InTable(table, n, w) ==> m'[w] == m[w]
    requires KeepsWords(m0, m, kept) && KeepsOutside(m0, m, s) && Includes(s.AllLive() - {table}, kept)
    ensures Consistent(m', s) && KeepsWords(m0, m', kept) && KeepsOutside(m0, m', s)
  {
    hide Tiled, Layout.AllLive, Layout.HoldsMeta;
    TableIsApart(m, s, table, n, kept);
    StoresKeepHeap(m, m', s);
  }

  /** No word of the table is the heap's own, another payload's or outside the arenas. */
  lemma TableIsApart(m: seq<Word>, s: Layout, table: nat, n: nat, kept: map<nat, nat>)
    requires Consistent(m, s) && table in s.AllLive() && s.AllLive()[table] >= SLOT_WORDS * n
    requires Includes(s.AllLive() - {table}, kept)
    ensures forall w {:trigger InTable(table, n, w)} :: InTable(table, n, w) ==> !s.HoldsMeta(w) && s.InArena(w)
    ensures forall p, w {:trigger p in kept, InTable(table, n, w)} ::
              p in kept && InTable(table, n, w) ==> !(p <= w < p + kept[p])
  {
    hide Tiled, Layout.AllLive, Layout.HoldsMeta;
    InOneArena(s, table);
    forall w | InTable(table, n, w) ensures !s.HoldsMeta(w) && s.InArena(w) {
      LivePayloadsHoldNoMetadata(s, table, w);
    }
    forall p, w | p in kept && InTable(table, n, w) ensures !(p <= w < p + kept[p]) {
      if p < table { LivePayloadsDisjoint(s, p, table); } else { LivePayloadsDisjoint(s, table, p); }
    }
  }

  /** A store in the table spares the heap's own words and every other payload. */
  lemma StoreInTable(m: seq<Word>, s: Layout, table: nat, n: nat, w: nat, v: Word, m0: seq<Word>,
                     kept: map<nat, nat>)
    requires Consistent(m, s) && table in s.AllLive() && s.AllLive()[table] >= SLOT_WORDS * n && InTable(table, n, w)
    requires KeepsWords(m0, m, kept) && KeepsOutside(m0, m, s) && Includes(s.AllLive() - {table}, kept)
    ensures w < |m| && Consistent(m[w := v], s)
    ensures KeepsWords(m0, m[w := v], kept) && KeepsOutside(m0, m[w := v], s)
  {
    hide Tiled, Layout.AllLive, Layout.Shape;
    OwnerStoresKeepHeap(m, s, table, w, v);
    OwnerStoreKeepsOthers(m, s, table, w, v);
  }

  /** Every finished slot at distance 1 to `k` has been reclaimed and no other slot touched. */
  predicate Passed(cs: seq<Context>, now: seq<Context>, c: nat, k: nat) {
    && |cs| == |now| && c < |cs|
    && forall t :: 0 <= t < |cs| ==>
         now[t] == if 0 < Gap(|cs|, c, t) <= k && cs[t].state == Done then cs[t].(state := Unused) else cs[t]
  }

  lemma SlotZeroRuns(cs: seq<Context>, live: map<nat, nat>)
    requires Ownership(cs, live)
    ensures |cs| > 0 && cs[0].state == Running
  {
  }

  lemma PassStart(cs: seq<Context>, c: nat)
    requires c < |cs|
    ensures Passed(cs, cs, c, 0) && Freed(cs, c, 1) == {}
  {
  }

  /** The slot at distance `k`, looked at after any reclaiming, is running exactly when it was before. */
  lemma PassHere(cs: seq<Context>, now: seq<Context>, c: nat, k: nat)
    requires Passed(cs, now, c, k) && k < |cs|
    ensures var t := Ahead(|cs|, c, k); now[t].state == Running <==> cs[t].state == Running
    ensures k + 1 < |cs| ==> (Ahead(|cs|, c, k) + 1) % |cs| == Ahead(|cs|, c, k + 1)
  {
    WrapAround(|cs|, c, k);
  }

  lemma WrapAround(n: nat, c: nat, k: nat)
    requires c < n && k < n
    ensures k + 1 < n ==> (Ahead(n, c, k) + 1) % n == Ahead(n, c, k + 1)
  {
    var t := Ahead(n, c, k);
    if t + 1 < n { DivMod(0, n, t + 1); } else { DivMod(1, n, 0); }
  }

  lemma PassStep(cs: seq<Context>, now: seq<Context>, c: nat, k: nat)
    requires Passed(cs, now, c, k) && k + 1 < |cs|
    ensures var t := Ahead(|cs|, c, k + 1);
            && now[t] == cs[t] && t != c
            && (if cs[t].state == Done then
                  && Passed(cs, now[t := now[t].(state := Unused)], c, k + 1)
                  && Freed(cs, c, k + 2) == Freed(cs, c, k + 1) + StacksOf(cs[t])
                else Passed(cs, now, c, k + 1) && Freed(cs, c, k + 2) == Freed(cs, c, k + 1))
  {
    var t := Ahead(|cs|, c, k + 1);
    forall u | 0 <= u < |cs| ensures Gap(|cs|, c, u) == k + 1 <==> u == t {
      AheadOfGap(|cs|, c, u);
    }
    FreedStep(cs, c, k + 1);
  }

  lemma FreedStep(cs: seq<Context>, c: nat, k: nat)
    requires c < |cs| && 1 <= k < |cs|
    ensures var t := Ahead(|cs|, c, k);
            Freed(cs, c, k + 1) == Freed(cs, c, k) + (if cs[t].state == Done then StacksOf(cs[t]) else {})
  {
    var t := Ahead(|cs|, c, k);
    forall p ensures p in Freed(cs, c, k + 1) <==>
      p in Freed(cs, c, k) || (cs[t].state == Done && p in StacksOf(cs[t]))
    {
      if p in Freed(cs, c, k + 1) {
        var j :| 1 <= j < k + 1 && cs[Ahead(|cs|, c, j)].state == Done && p in StacksOf(cs[Ahead(|cs|, c, j)]);
      }
    }
  }

  lemma ScheduleEnds(cs: seq<Context>, now: seq<Context>, c: nat, d: nat)
    requires c < |cs| && 1 <= d <= |cs|
    requires Passed(cs, now, c, if d == |cs| then d - 1 else d)
    requires forall j :: 1 <= j < d ==> cs[Ahead(|cs|, c, j)].state != Running
    requires d < |cs| ==> cs[Ahead(|cs|, c, d)].state == Running
    ensures Dist(States(cs), c, 1) == d
    ensures States(now) == AfterCall(States(cs), c)
    ensures d < |cs| ==> Freed(cs, c, d + 1) == Freed(cs, c, d)
    ensures forall t :: 0 <= t < |cs| ==> now[t] == cs[t].(state := now[t].state)
  {
    DistIs(States(cs), c, 1, d);
    if d < |cs| { FreedStep(cs, c, d); }
    forall t | 0 <= t < |cs| ensures States(now)[t] == AfterCall(States(cs), c)[t] {
      AheadOfGap(|cs|, c, t);
    }
  }

  lemma OldOwner(cs: seq<Context>, live: map<nat, nat>, t: nat)
    requires Ownership(cs, live) && Holds(cs, t)
    ensures Ownership(cs[t := cs[t].(state := Unused)], live - StacksOf(cs[t]))
    ensures OwnsStacks(cs, live, t) && live - {cs[t].stackBase} - {cs[t].kstackBase} == live - StacksOf(cs[t])
  {
    var cs' := cs[t := cs[t].(state := Unused)];
    forall u: nat | Holds(cs', u) ensures OwnsStacks(cs', live - StacksOf(cs[t]), u) {
      assert Holds(cs, u) && OwnsStacks(cs, live, u);
      assert StacksOf(cs[t]) !! StacksOf(cs[u]);
      assert cs[u].stackBase in StacksOf(cs[u]) && cs[u].kstackBase in StacksOf(cs[u]);
    }
    forall u: nat, w: nat | Holds(cs', u) && Holds(cs', w) && u != w ensures StacksOf(cs'[u]) !! StacksOf(cs'[w]) {
      assert Holds(cs, u) && Holds(cs, w);
    }
  }

  lemma SameHolders(cs: seq<Context>, cs': seq<Context>, live: map<nat, nat>)
    requires Ownership(cs, live) && |cs'| == |cs| && cs'[0].state == Running
    requires forall t: nat | Holds(cs', t) ::
               Holds(cs, t) && cs'[t].stackBase == cs[t].stackBase && cs'[t].kstackBase == cs[t].kstackBase
    ensures Ownership(cs', live)
  {
    forall t: nat | Holds(cs', t) ensures OwnsStacks(cs', live, t) {
      assert OwnsStacks(cs, live, t);
    }
  }

  lemma NewOwner(cs: seq<Context>, live: map<nat, nat>, live': map<nat, nat>, fd: nat, c: Context)
    requires Ownership(cs, live) && 0 < fd < |cs| && cs[fd].state == Unused && c.state == Running
    requires FreshStacks(live, live', c.stackBase, c.kstackBase)
    requires forall t :: 0 <= t < fd ==> cs[t].state != Unused
    requires c.ksp == 4 * c.kstackBase + THREAD_STACK_SIZE
    ensures Ownership(cs[fd := c], live') && IsCreation(cs, cs[fd := c], live, live', fd)
  {
    var cs' := cs[fd := c];
    forall t: nat | Holds(cs', t) ensures OwnsStacks(cs', live', t) {
      if t != fd { assert Holds(cs, t); }
    }
    forall t: nat, u: nat | Holds(cs', t) && Holds(cs', u) && t != u ensures StacksOf(cs'[t]) !! StacksOf(cs'[u]) {
      if t != fd { assert Holds(cs, t); }
      if u != fd { assert Holds(cs, u); }
    }
  }
}
