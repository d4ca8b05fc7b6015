/** Start-up tables, `map_page` and the page-fault handler over the machine's memory. */
module DemandPaging {
  import opened Words
  import opened Arithmetic
  import opened FrameBitmap
  import opened Paging

  predicate WantsRw(flags: nat) { flags / MEM_RW % 2 == 1 }

  predicate WantsUser(flags: nat) { flags / MEM_USER % 2 == 1 }

  function PageOf(virt: Word): nat { virt / 0x1000 }

  /** `__kmem_is_user` */
  predicate IsUserAddress(addr: Word) { addr != 0 && 0x1000_0000 <= addr <= 0xC000_0000 }

  /** What a fault asks for. */
  function RightsFor(cr2: Word): nat { if IsUserAddress(cr2) then MEM_RW + MEM_USER else MEM_RW }

  /** The table entry `map_page` writes. */
  function NewEntry(phys: Word, flags: nat): Word {
    phys / 0x1000 * 0x1000 + 1 + (if WantsRw(flags) then 2 else 0) + (if WantsUser(flags) then 4 else 0)
  }

  /** The parts of a table entry for `frame` with the low bits `low`. */
  lemma EntryBits(frame: nat, low: nat)
    requires low < 8
    ensures var e := frame * 0x1000 + low;
            && Present(e) == (low % 2 == 1) && Writable(e) == (low / 2 % 2 == 1) && User(e) == (low / 4 == 1)
            && FrameOf(e) == frame && e % 0x1000 == low
  {
    DivMod(frame, 0x1000, low);
    LowBits(frame * 0x200, low);
    DivMod(frame, 0x200, 0);
  }

  lemma NewEntryBits(phys: Word, flags: nat)
    ensures var t := NewEntry(phys, flags);
            && Present(t) && Writable(t) == WantsRw(flags) && User(t) == WantsUser(flags)
            && FrameOf(t) == FrameOf(phys) && t % 0x1000 < 8
  {
    EntryBits(phys / 0x1000, 1 + (if WantsRw(flags) then 2 else 0) + (if WantsUser(flags) then 4 else 0));
  }

  /** The directory entry for a new table. */
  function NewTableEntry(page: Word, flags: nat): Word
    requires page % 0x1000 == 0
  {
    page + 3 + (if WantsUser(flags) then 4 else 0)
  }

  lemma NewTableBits(page: Word, flags: nat)
    requires page % 0x1000 == 0
    ensures var e := NewTableEntry(page, flags);
            && Present(e) && Writable(e) && User(e) == WantsUser(flags) && FrameOf(e) == page / 0x1000
            && e % 0x1000 < 8
  {
    DivMod(page / 0x1000, 0x1000, 0);
    EntryBits(page / 0x1000, 3 + if WantsUser(flags) then 4 else 0);
  }

  /** The slot's entry opened to user programs if they ask for it. */
  function Opened(m: seq<Word>, dir: nat, slot: nat, flags: nat): seq<Word>
    requires |m| == PHYS_WORDS && dir < FRAMES && slot < ENTRIES
  {
    var e := Pde(m, dir, slot);
    SetUserBits(e);
    if WantsUser(flags) && !User(e) then Poke(m, dir, slot, SetUser(e)) else m
  }

  /** What preparing a slot other than the last takes: the lowest unused frame for a table if there was none, and
      nothing otherwise. */
  ghost predicate TableTaken(m: seq<Word>, bm: seq<Word>, m': seq<Word>, bm': seq<Word>, dir: nat, slot: nat)
    requires |m| == |m'| == PHYS_WORDS && |bm| == |bm'| == WORDS && dir < FRAMES && slot < ENTRIES
  {
    && (forall s :: 0 <= s < ENTRIES && s != slot ==> Pde(m', dir, s) == Pde(m, dir, s))
    && if Present(Pde(m, dir, slot)) then FrameOf(Pde(m', dir, slot)) == FrameOf(Pde(m, dir, slot)) && bm' == bm
       else IsLowestUnused(bm, FrameOf(Pde(m', dir, slot))) && Marked(bm, bm', FrameOf(Pde(m', dir, slot)))
  }

  /** The frames a successful fault takes: `f` for the page, and one more for a table if the slot had none. */
  ghost predicate FramesTaken(m: seq<Word>, bm: seq<Word>, m': seq<Word>, bm': seq<Word>, dir: nat, slot: nat, f: nat)
    requires |m| == |m'| == PHYS_WORDS && |bm| == |bm'| == WORDS && dir < FRAMES && slot < ENTRIES
  {
    && IsLowestUnused(bm, f)
    && if Present(Pde(m, dir, slot)) then Marked(bm, bm', f)
       else
         var t := FrameOf(Pde(m', dir, slot));
         && t != f && !Used(bm, t) && (forall g :: 0 <= g < t ==> g == f || Used(bm, g))
         && forall g :: 0 <= g < FRAMES ==> (Used(bm', g) <==> g == f || g == t || Used(bm, g))
  }

  /** A fault is refused for a page that is present, at address 0, and when the frames do not suffice for the page
      and, if its slot has none, a table. */
  ghost predicate Refused(m: seq<Word>, bm: seq<Word>, dir: nat, cr2: Word, flags: nat)
    requires |m| == PHYS_WORDS && |bm| == WORDS && dir < FRAMES
  {
    Present(flags) || cr2 == 0 || AllUsed(bm) || (!Present(Pde(m, dir, Slot(PageOf(cr2)))) && OneLeft(bm))
  }

  /** The refused faults that take a frame out of the bitmap all the same. */
  ghost predicate LosesFrame(m: seq<Word>, bm: seq<Word>, dir: nat, cr2: Word, flags: nat)
    requires |m| == PHYS_WORDS && |bm| == WORDS && dir < FRAMES
  {
    && !Present(flags) && !AllUsed(bm)
    && (cr2 == 0 || (!Present(Pde(m, dir, Slot(PageOf(cr2)))) && OneLeft(bm)))
  }

  /** What preparing a slot does to translations: opening it to user programs grants what its entries grant. */
  ghost predicate KeepsMappings(m: seq<Word>, m': seq<Word>, dir: nat, slot: nat, flags: nat)
    requires |m| == |m'| == PHYS_WORDS && dir < FRAMES
  {
    forall p :: 0 <= p < PAGES && Slot(p) != SELF ==>
      Translate(m', dir, p) == if WantsUser(flags) then Granted(m, dir, p, slot) else Translate(m, dir, p)
  }

  /** The page, and its alias if its slot is shared, is mapped by the entry `t`; every other page is mapped as
      before, but for the rights that opening its slot grants. */
  ghost predicate Maps(m: seq<Word>, m': seq<Word>, dir: nat, page: nat, t: Word, flags: nat)
    requires |m| == |m'| == PHYS_WORDS && dir < FRAMES && page < PAGES
  {
    && Present(Pde(m', dir, Slot(page))) && (WantsUser(flags) ==> User(Pde(m', dir, Slot(page))))
    && forall p :: 0 <= p < PAGES && Slot(p) != SELF ==>
         Translate(m', dir, p) ==
         if SameEntry(p, page) then Some(Through(Pde(m', dir, Slot(p)), t))
         else if WantsUser(flags) then Granted(m, dir, p, Slot(page)) else Translate(m, dir, p)
  }

  /** Frames, rights aside. */
  lemma FramesMapped(m: seq<Word>, m': seq<Word>, dir: nat, page: nat, phys: Word, flags: nat)
    requires |m| == |m'| == PHYS_WORDS && dir < FRAMES && page < PAGES
    requires Maps(m, m', dir, page, NewEntry(phys, flags), flags)
    ensures forall p :: 0 <= p < PAGES && Slot(p) != SELF ==>
              FrameAt(m', dir, p) == if SameEntry(p, page) then Some(FrameOf(phys)) else FrameAt(m, dir, p)
  {
    hide FrameOf, Present, User, Writable, Translate, SameEntry, NewEntry;
    NewEntryBits(phys, flags);
  }

  /** In a normal slot the page alone is mapped, with the rights asked for, and every other page exactly as before. */
  lemma MapsOne(m: seq<Word>, bm: seq<Word>, m': seq<Word>, bm': seq<Word>, dir: nat, id: nat, page: nat, phys: Word,
                flags: nat)
    requires Tables(m, bm, dir, id) && Tables(m', bm', dir, id) && page < PAGES && Normal(Slot(page))
    requires Maps(m, m', dir, page, NewEntry(phys, flags), flags)
    ensures Translate(m', dir, page) == Some(Mapping(FrameOf(phys), WantsRw(flags), WantsUser(flags)))
    ensures forall p :: 0 <= p < PAGES && Slot(p) != SELF && p != page ==>
              Translate(m', dir, p) == Translate(m, dir, p)
  {
    hide FrameOf, Present, User, Writable, WantsRw, WantsUser, NewEntry, Translate, Granted;
    NewEntryBits(phys, flags);
    assert TableAt(m', bm', dir, Slot(page));
    forall p | 0 <= p < PAGES && Slot(p) != SELF && p != page ensures Translate(m', dir, p) == Translate(m, dir, p) {
      NothingGranted(m, bm, dir, id, p, Slot(page));
      if SameEntry(p, page) { SamePage(p, page); }
    }
  }

  /** The frames handed to pages on demand: distinct, never reserved, marked used, never a page table, and
      each where its page translates to. */
  ghost predicate Owned(m: seq<Word>, bm: seq<Word>, dir: nat, data: map<nat, nat>)
    requires |m| == PHYS_WORDS && |bm| == WORDS && dir < FRAMES
  {
    && (forall p :: p in data ==> p < PAGES && Normal(Slot(p)) && RESERVED <= data[p] < FRAMES
                                  && Used(bm, data[p]) && FrameAt(m, dir, p) == Some(data[p]))
    && (forall p, q :: p in data && q in data && p != q ==> data[p] != data[q])
    && (forall p, s :: p in data && Normal(s) && Present(Pde(m, dir, s)) ==> data[p] != FrameOf(Pde(m, dir, s)))
  }

  /** An owned frame is neither the directory nor a table, so no entry of either changes. */
  lemma OwnerWritesSpareTables(m: seq<Word>, bm: seq<Word>, dir: nat, id: nat, data: map<nat, nat>, p: nat, i: nat,
                               w: Word)
    requires Tables(m, bm, dir, id) && Owned(m, bm, dir, data) && p in data && i < ENTRIES
    ensures var m' := Poke(m, data[p], i, w);
            && (forall s :: 0 <= s < ENTRIES ==> Pde(m', dir, s) == Pde(m, dir, s))
            && forall q :: 0 <= q < PAGES && Slot(q) != SELF && Present(Pde(m, dir, Slot(q))) ==>
                 Pte(m', dir, q) == Pte(m, dir, q)
  {
    hide FrameOf, Present, User, Writable;
    var f := data[p];
    var m' := Poke(m, f, i, w);
    forall s | 0 <= s < ENTRIES ensures Pde(m', dir, s) == Pde(m, dir, s) {
      PokeAt(m, f, i, w, dir, s);
    }
    forall q | 0 <= q < PAGES && Slot(q) != SELF && Present(Pde(m, dir, Slot(q)))
      ensures Pte(m', dir, q) == Pte(m, dir, q)
    {
      if Normal(Slot(q)) { assert TableAt(m, bm, dir, Slot(q)); }
      PokeBound(m, dir, Slot(q));
      PokeAt(m, f, i, w, FrameOf(Pde(m, dir, Slot(q))), Index(q));
    }
  }

  /** Programs may write any word of the frames they own: no translation changes. */
  lemma OwnerWritesAreHarmless(m: seq<Word>, bm: seq<Word>, dir: nat, id: nat, data: map<nat, nat>, p: nat, i: nat,
                              w: Word)
    requires Tables(m, bm, dir, id) && Owned(m, bm, dir, data) && p in data && i < ENTRIES
    ensures var m' := Poke(m, data[p], i, w);
            && Tables(m', bm, dir, id) && Owned(m', bm, dir, data)
            && forall q :: 0 <= q < PAGES && Slot(q) != SELF ==> Translate(m', dir, q) == Translate(m, dir, q)
  {
    hide FrameOf, Present, User, Writable;
    var m' := Poke(m, data[p], i, w);
    OwnerWritesSpareTables(m, bm, dir, id, data, p, i, w);
    forall s | Normal(s) ensures TableAt(m', bm, dir, s) {
      assert TableAt(m, bm, dir, s);
    }
    forall q | 0 <= q < PAGES && Normal(Slot(q)) ensures RightsAt(m', dir, q) {
      assert RightsAt(m, dir, q);
    }
  }

  class Mm {
    const mem: array<Word>      // physical memory
    const bitmap: array<Word>
    const dir: nat              // frame of kpagedir
    const id: nat               // frame of pagetab_id
    ghost var data: map<nat, nat>

    ghost predicate Sound()
      reads this, mem, bitmap
    {
      mem != bitmap && Tables(mem[..], bitmap[..], dir, id)
    }

    ghost predicate Valid()
      reads this, mem, bitmap
    {
      Sound() && Owned(mem[..], bitmap[..], dir, data)
    }

    /** `PTAB(slot)[i] = e`: through the recursive slot this writes the table the directory names. */
    method WriteTable(slot: nat, i: nat, e: Word)
      requires mem.Length == PHYS_WORDS && dir < FRAMES && slot < ENTRIES && i < ENTRIES
      modifies mem
      ensures mem[..] == Poke(old(mem[..]), FrameOf(Pde(old(mem[..]), dir, slot)), i, e)
    {
      PokeBound(mem[..], dir, slot);
      var table := FrameOf(mem[dir * ENTRIES + slot]);
      mem[table * ENTRIES + i] := e;
    }

    /** `memset(PTAB(slot), 0, PAGE_SIZE)` */
    method ClearTable(slot: nat)
      requires mem.Length == PHYS_WORDS && dir < FRAMES && slot < ENTRIES
      modifies mem
      ensures IsCleared(old(mem[..]), mem[..], FrameOf(Pde(old(mem[..]), dir, slot)))
    {
      PokeBound(mem[..], dir, slot);
      var table := FrameOf(mem[dir * ENTRIES + slot]);
      forall i | table * ENTRIES <= i < table * ENTRIES + ENTRIES {
        mem[i] := 0;
      }
    }

    /** Make sure the slot has a table open to the caller's rights; fails only if no frame is left. */
    method PrepareSlot(slot: nat, flags: nat) returns (r: int)
      requires Sound() && slot < ENTRIES
      modifies mem, bitmap
      ensures r == 1 || r == 0
      ensures r == 1 <==> !Present(Pde(old(mem[..]), dir, slot)) && AllUsed(old(bitmap[..]))
      ensures r == 1 ==> mem[..] == old(mem[..]) && bitmap[..] == old(bitmap[..])
      ensures slot != SELF ==> Sound()
      ensures Present(Pde(old(mem[..]), dir, slot)) ==>
        mem[..] == Opened(old(mem[..]), dir, slot, flags) && bitmap[..] == old(bitmap[..])
      ensures r == 0 && !Present(Pde(old(mem[..]), dir, slot)) ==>
        && IsLowestUnused(old(bitmap[..]), FrameOf(Pde(mem[..], dir, slot)))
        && Marked(old(bitmap[..]), bitmap[..], FrameOf(Pde(mem[..], dir, slot)))
      ensures r == 0 ==>
        && Present(Pde(mem[..], dir, slot)) && (WantsUser(flags) ==> User(Pde(mem[..], dir, slot)))
        && (slot != SELF ==> KeepsMappings(old(mem[..]), mem[..], dir, slot, flags))
        && (forall s :: 0 <= s < ENTRIES && s != slot ==> Pde(mem[..], dir, s) == Pde(old(mem[..]), dir, s))
        && (Present(Pde(old(mem[..]), dir, slot)) ==>
              FrameOf(Pde(mem[..], dir, slot)) == FrameOf(Pde(old(mem[..]), dir, slot)))
    {
      hide Present, User, Writable, FrameOf, SetUser;
      ghost var m, bm := mem[..], bitmap[..];
      var e := mem[dir * ENTRIES + slot];
      assert e == Pde(m, dir, slot);
      if !Present(e) {
        var page := AllocPage(bitmap);
        if page == 0 {
          return 1;
        }
        var ne := NewTableEntry(page, flags);
        NewTableBits(page, flags);
        mem[dir * ENTRIES + slot] := ne;
        ghost var m0 := mem[..];
        assert m0 == Poke(m, dir, slot, ne);
        PokeAt(m, dir, slot, ne, dir, slot);
        ClearTable(slot);
        assert FrameOf(ne) >= RESERVED;
        NewTable(m, mem[..], bm, bitmap[..], dir, id, slot, ne);
        OtherSlots(m, mem[..], dir, slot, ne);
      } else if WantsUser(flags) && !User(e) {
        if slot != SELF { OpenSlot(m, bm, dir, id, slot); }
        SetUserBits(e);
        PokeSlot(m, dir, slot, SetUser(e));
        mem[dir * ENTRIES + slot] := SetUser(e);
        assert mem[..] == Poke(m, dir, slot, SetUser(e));
      }
      return 0;
    }

    method MapPage(phys: Word, virt: Word, flags: nat) returns (r: int)
      requires Sound()
      modifies mem, bitmap
      ensures r == 1 || r == 0
      ensures r == 1 <==> phys == 0 || virt == 0 ||
                          (!Present(Pde(old(mem[..]), dir, Slot(PageOf(virt)))) && AllUsed(old(bitmap[..])))
      ensures r == 1 ==> mem[..] == old(mem[..]) && bitmap[..] == old(bitmap[..])
      ensures Slot(PageOf(virt)) != SELF ==> Sound()
      ensures r == 0 && Slot(PageOf(virt)) != SELF ==>
        TableTaken(old(mem[..]), old(bitmap[..]), mem[..], bitmap[..], dir, Slot(PageOf(virt)))
      ensures r == 0 && Slot(PageOf(virt)) == SELF ==>
        && bitmap[..] == old(bitmap[..])
        && mem[..] == Poke(Opened(old(mem[..]), dir, SELF, flags), dir, Index(PageOf(virt)), NewEntry(phys, flags))
      ensures r == 0 && Slot(PageOf(virt)) != SELF ==>
        Maps(old(mem[..]), mem[..], dir, PageOf(virt), NewEntry(phys, flags), flags)
    {
      if phys == 0 || virt == 0 {
        return 1;
      }
      hide Present, User, Writable, FrameOf, Tables, Translate, AllUsed, Marked, IsLowestUnused, Used, Opened;
      ghost var m, bm := mem[..], bitmap[..];
      var slot, i := virt / 0x40_0000 % 0x400, virt / 0x1000 % 0x400;
      PageParts(virt);
      var failed := PrepareSlot(slot, flags);
      if failed == 1 {
        return 1;
      }
      var t := NewEntry(phys, flags);
      NewEntryBits(phys, flags);
      if slot != SELF {
        WriteEntry(mem[..], bitmap[..], dir, id, PageOf(virt), t);
      } else {
        SelfIsDirectory(m, bm, dir, id, flags);
      }
      WriteTable(slot, i, t);
      return 0;
    }

    /** A not-present fault gives the page a frame `f` of its own; any other fault is refused. */
    method PageFault(cr2: Word, flags: nat) returns (r: int, ghost f: nat)
      requires Valid()
      modifies this`data, mem, bitmap
      ensures r == 1 || r == 0
      ensures r == 1 <==> Refused(old(mem[..]), old(bitmap[..]), dir, cr2, flags)
      ensures r == 1 ==> Valid() && mem[..] == old(mem[..]) && data == old(data)
      ensures r == 1 ==>
        if LosesFrame(old(mem[..]), old(bitmap[..]), dir, cr2, flags)
        then IsLowestUnused(old(bitmap[..]), f) && Marked(old(bitmap[..]), bitmap[..], f)
        else bitmap[..] == old(bitmap[..])
      ensures r == 0 && Slot(PageOf(cr2)) != SELF ==>
        && Valid() && data == (if Normal(Slot(PageOf(cr2))) then old(data)[PageOf(cr2) := f] else old(data))
        && FramesTaken(old(mem[..]), old(bitmap[..]), mem[..], bitmap[..], dir, Slot(PageOf(cr2)), f)
        && Maps(old(mem[..]), mem[..], dir, PageOf(cr2), NewEntry(0x1000 * f, RightsFor(cr2)), RightsFor(cr2))
      ensures r == 0 && Normal(Slot(PageOf(cr2))) ==>
        && Translate(mem[..], dir, PageOf(cr2)) == Some(Mapping(f, true, 0x1000_0000 <= cr2 <= 0xC000_0000))
        && forall p :: 0 <= p < PAGES && Slot(p) != SELF && p != PageOf(cr2) ==>
             Translate(mem[..], dir, p) == Translate(old(mem[..]), dir, p)
      ensures r == 0 && Slot(PageOf(cr2)) == SELF ==>
        && IsLowestUnused(old(bitmap[..]), f) && Marked(old(bitmap[..]), bitmap[..], f) && data == old(data)
        && mem[..] == Poke(old(mem[..]), dir, Index(PageOf(cr2)), NewEntry(0x1000 * f, MEM_RW))
    {
      hide Present, FrameAt, Translate, WantsRw, WantsUser, Tables, Owned, Used, AllUsed, OneLeft, Marked,
           IsLowestUnused, FramesTaken, TableTaken, Opened, IsUserAddress, SameEntry, Maps;
      f := 0;
      if !Present(flags) {
        ghost var bm0 := bitmap[..];
        FrameZeroUsed(mem[..], bm0, dir, id);
        var page := AllocPage(bitmap);
        f := page / 0x1000;
        ghost var m, bm := mem[..], bitmap[..];
        RightsAsked(cr2);
        if page != 0 {
          LastFrame(bm0, bm, f);
          KeepsTables(m, bm0, bm, dir, id, data, f);
        }
        r := MapPage(page, cr2, RightsFor(cr2));
        if r == 0 && Slot(PageOf(cr2)) != SELF {
          Taken(m, bm0, bm, mem[..], bitmap[..], dir, Slot(PageOf(cr2)), f);
          FramesMapped(m, mem[..], dir, PageOf(cr2), page, RightsFor(cr2));
          GrowData(m, bm0, bm, mem[..], bitmap[..], dir, id, data, PageOf(cr2), f);
          if Normal(Slot(PageOf(cr2))) {
            MapsOne(m, bm0, mem[..], bitmap[..], dir, id, PageOf(cr2), page, RightsFor(cr2));
            data := data[PageOf(cr2) := f];
          }
        } else if r == 0 {
          NothingToOpen(m, dir, RightsFor(cr2));
        }
        return;
      }
      return 1, 0;
    }

    /** `_mm_init`: page 0 unmapped, the first 4 MiB mapped at 0 and at 0xC0000000, and the directory mapped into
        itself. `kpagedir` and `pagetab_id` are page-aligned kernel data, so their frames are reserved ones. */
    constructor (memory: array<Word>, bits: array<Word>, dirFrame: nat, idFrame: nat)
      requires memory.Length == PHYS_WORDS && bits.Length == WORDS && memory != bits
      requires 0 < dirFrame < RESERVED && 0 < idFrame < RESERVED && dirFrame != idFrame
      modifies memory, bits
      ensures Valid() && mem == memory && bitmap == bits && dir == dirFrame && id == idFrame && data == map[]
      ensures forall a: Word :: a < 0xFFC0_0000 ==> Translate(mem[..], dir, PageOf(a)) == StartMapping(a)
      ensures forall f :: 0 <= f < FRAMES ==> (Used(bitmap[..], f) <==> f < 0x400 || Used(old(bits[..]), f))
    {
      mem := memory;
      bitmap := bits;
      dir := dirFrame;
      id := idFrame;
      data := map[];
      new;
      StoreTables();
      ReserveFrames();
      hide Initial, Tables, Used, Translate, Owned;
      NothingOwned(mem[..], bitmap[..], dir);
      InitialTables(mem[..], bitmap[..], dir, id);
    }

    /** The stores into `kpagedir` and `pagetab_id`. */
    method StoreTables()
      requires mem.Length == PHYS_WORDS && 0 < dir < RESERVED && 0 < id < RESERVED && dir != id
      modifies mem
      ensures Initial(mem[..], dir, id)
    {
      forall k | dir * ENTRIES <= k < dir * ENTRIES + ENTRIES {
        mem[k] := 0;
      }
      mem[id * ENTRIES] := 0;
      for i := 1 to ENTRIES
        invariant mem[id * ENTRIES] == 0
        invariant forall w :: dir * ENTRIES <= w < dir * ENTRIES + ENTRIES ==> mem[w] == 0
        invariant forall w :: id * ENTRIES < w < id * ENTRIES + i ==> mem[w] == (w - id * ENTRIES) * 0x1000 + 3
      {
        mem[id * ENTRIES + i] := i * 0x1000 + 3;
      }
      mem[dir * ENTRIES] := id * 0x1000 + 1;
      mem[dir * ENTRIES + HIGH] := id * 0x1000 + 3;
      mem[dir * ENTRIES + SELF] := dir * 0x1000 + 3;
    }

    /** The frames of the first 4 MiB are taken. */
    method ReserveFrames()
      requires bitmap.Length == WORDS
      modifies bitmap
      ensures forall f :: 0 <= f < FRAMES ==> (Used(bitmap[..], f) <==> f < 0x400 || Used(old(bitmap[..]), f))
    {
      ghost var before := bitmap[..];
      for i := 0 to RESERVED / 32
        invariant forall k :: 0 <= k < WORDS ==> bitmap[k] == if k < i then 0xFFFF_FFFF else before[k]
      {
        bitmap[i] := 0xFFFF_FFFF;
      }
      hide Used;
      FullWords(before, bitmap[..]);
    }
  }

  lemma NothingOwned(m: seq<Word>, bm: seq<Word>, dir: nat)
    requires |m| == PHYS_WORDS && |bm| == WORDS && dir < FRAMES
    ensures Owned(m, bm, dir, map[])
  {
  }

  /** At start-up the first 4 MiB but their first page are mapped twice: where they are, for reading, and from
      0xC0000000 on, for writing too. User programs have access to neither. */
  function StartMapping(a: Word): Option<Mapping> {
    if 0x1000 <= a < 0x40_0000 then Some(Mapping(a / 0x1000, false, false))
    else if 0xC000_1000 <= a < 0xC040_0000 then Some(Mapping((a - 0xC000_0000) / 0x1000, true, false))
    else None
  }

  lemma FullWords(bm: seq<Word>, bm': seq<Word>)
    requires |bm| == |bm'| == WORDS
    requires forall k :: 0 <= k < WORDS ==> bm'[k] == if k < RESERVED / 32 then 0xFFFF_FFFF else bm[k]
    ensures forall f :: 0 <= f < FRAMES ==> (Used(bm', f) <==> f < RESERVED || Used(bm, f))
  {
    hide Bit, Pow2;
    WordIs32Bits();
    forall f | 0 <= f < FRAMES ensures Used(bm', f) <==> f < RESERVED || Used(bm, f) {
      if f < RESERVED { AllOnes(32, f % 32); }
    }
  }

  ghost predicate Initial(m: seq<Word>, dir: nat, id: nat) {
    && |m| == PHYS_WORDS && 0 < dir < RESERVED && 0 < id < RESERVED && dir != id
    && (forall s | 0 <= s < ENTRIES ::
          Pde(m, dir, s) == if s == 0 then id * 0x1000 + 1 else if s == HIGH then id * 0x1000 + 3
                            else if s == SELF then dir * 0x1000 + 3 else 0)
    && (forall i | 0 <= i < ENTRIES :: At(m, id, i) == if i == 0 then 0 else i * 0x1000 + 3)
  }

  lemma InitialEntry(frame: nat, low: nat)
    requires low == 1 || low == 3
    ensures Present(frame * 0x1000 + low) && FrameOf(frame * 0x1000 + low) == frame
    ensures User(frame * 0x1000 + low) == false && !Present(0) && (Writable(frame * 0x1000 + low) <==> low == 3)
  {
    EntryBits(frame, low);
  }

  lemma InitialTables(m: seq<Word>, bm: seq<Word>, dir: nat, id: nat)
    requires Initial(m, dir, id) && |bm| == WORDS && (forall f :: 0 <= f < RESERVED ==> Used(bm, f))
    ensures Tables(m, bm, dir, id)
    ensures forall a: Word :: a < 0xFFC0_0000 ==> Translate(m, dir, PageOf(a)) == StartMapping(a)
  {
    hide FrameOf, Present, User, Writable, Bit;
    InitialEntry(id, 1);
    InitialEntry(id, 3);
    InitialEntry(dir, 3);
    forall a: Word | a < 0xFFC0_0000 ensures Translate(m, dir, PageOf(a)) == StartMapping(a) {
      PageParts(a);
      InitialEntry(Index(PageOf(a)), 3);
    }
  }

  lemma FrameZeroUsed(m: seq<Word>, bm: seq<Word>, dir: nat, id: nat)
    requires Tables(m, bm, dir, id)
    ensures |m| == PHYS_WORDS && |bm| == WORDS && dir < FRAMES && Used(bm, 0)
  {
  }

  /** What a fault asks for: writing, and access for programs in their part of the addresses, which does not
      include the recursive window. */
  lemma RightsAsked(cr2: Word)
    ensures WantsRw(RightsFor(cr2)) && (WantsUser(RightsFor(cr2)) <==> 0x1000_0000 <= cr2 <= 0xC000_0000)
    ensures Slot(PageOf(cr2)) == SELF ==> RightsFor(cr2) == MEM_RW && !WantsUser(RightsFor(cr2))
  {
  }

  /** Marking one more frame used disturbs nothing. */
  lemma KeepsTables(m: seq<Word>, bm: seq<Word>, bm': seq<Word>, dir: nat, id: nat, data: map<nat, nat>, f: nat)
    requires Tables(m, bm, dir, id) && Owned(m, bm, dir, data)
    requires |bm'| == WORDS && Marked(bm, bm', f)
    ensures Tables(m, bm', dir, id) && Owned(m, bm', dir, data)
  {
    hide FrameOf, Present, User, Writable, Bit;
    forall s | Normal(s) ensures TableAt(m, bm', dir, s) {
      assert TableAt(m, bm, dir, s);
      PokeBound(m, dir, s);
    }
  }

  /** The frame taken before `map_page` ran is new to every page and every table. */
  lemma GrowData(m: seq<Word>, bm0: seq<Word>, bm: seq<Word>, m': seq<Word>, bm': seq<Word>, dir: nat, id: nat,
                 data: map<nat, nat>, page: nat, f: nat)
    requires Tables(m, bm0, dir, id) && Owned(m, bm0, dir, data) && Tables(m, bm, dir, id)
    requires Tables(m', bm', dir, id) && page < PAGES && Slot(page) != SELF
    requires IsLowestUnused(bm0, f) && Marked(bm0, bm, f)
    requires forall g :: 0 <= g < FRAMES && Used(bm, g) ==> Used(bm', g)
    requires forall p :: 0 <= p < PAGES && Slot(p) != SELF ==>
               FrameAt(m', dir, p) == if SameEntry(p, page) then Some(f) else FrameAt(m, dir, p)
    requires TableTaken(m, bm, m', bm', dir, Slot(page))
    ensures Owned(m', bm', dir, if Normal(Slot(page)) then data[page := f] else data)
  {
    hide FrameOf, Present, User, Writable, Bit, FrameAt;
    var d := if Normal(Slot(page)) then data[page := f] else data;
    forall p | p in d
      ensures p < PAGES && Normal(Slot(p)) && RESERVED <= d[p] < FRAMES && Used(bm', d[p])
              && FrameAt(m', dir, p) == Some(d[p])
    {
      if p != page && SameEntry(p, page) { SamePage(p, page); }
    }
    forall p, s | p in d && Normal(s) && Present(Pde(m', dir, s)) ensures d[p] != FrameOf(Pde(m', dir, s)) {
      assert Used(bm, d[p]);
      if Present(Pde(m, dir, s)) { assert TableAt(m, bm0, dir, s); }
    }
  }

  lemma SamePage(p: nat, q: nat)
    requires SameEntry(p, q) && Normal(Slot(p))
    ensures p == q
  {
  }

  lemma PageParts(virt: Word)
    ensures Slot(PageOf(virt)) == virt / 0x40_0000 % 0x400 && Index(PageOf(virt)) == virt / 0x1000 % 0x400
    ensures PageOf(virt) < PAGES
  {
  }

  lemma OtherSlots(m: seq<Word>, m': seq<Word>, dir: nat, slot: nat, e: Word)
    requires |m| == PHYS_WORDS && dir < FRAMES && slot < ENTRIES && FrameOf(e) < FRAMES && FrameOf(e) != dir
    requires IsCleared(Poke(m, dir, slot, e), m', FrameOf(e))
    ensures forall s :: 0 <= s < ENTRIES && s != slot ==> Pde(m', dir, s) == Pde(m, dir, s)
  {
    forall s | 0 <= s < ENTRIES && s != slot ensures Pde(m', dir, s) == Pde(m, dir, s) {
      PokeAt(m, dir, slot, e, dir, s);
    }
  }

  /** The recursive slot stays that, whether or not it is opened. */
  lemma SelfIsDirectory(m: seq<Word>, bm: seq<Word>, dir: nat, id: nat, flags: nat)
    requires Tables(m, bm, dir, id)
    ensures FrameOf(Pde(Opened(m, dir, SELF, flags), dir, SELF)) == dir
  {
    hide FrameOf, Present, User, Writable, SetUser;
    SetUserBits(Pde(m, dir, SELF));
  }

  lemma NothingToOpen(m: seq<Word>, dir: nat, flags: nat)
    requires |m| == PHYS_WORDS && dir < FRAMES && !WantsUser(flags)
    ensures Opened(m, dir, SELF, flags) == m
  {
  }

  lemma Taken(m: seq<Word>, bm0: seq<Word>, bm: seq<Word>, m': seq<Word>, bm': seq<Word>, dir: nat, slot: nat, f: nat)
    requires |m| == |m'| == PHYS_WORDS && |bm0| == |bm| == |bm'| == WORDS && dir < FRAMES && slot < ENTRIES
    requires IsLowestUnused(bm0, f) && Marked(bm0, bm, f) && TableTaken(m, bm, m', bm', dir, slot)
    ensures FramesTaken(m, bm0, m', bm', dir, slot, f)
    ensures forall g :: 0 <= g < FRAMES && Used(bm, g) ==> Used(bm', g)
  {
    hide Used, Present, FrameOf;
  }

  lemma PokeSlot(m: seq<Word>, dir: nat, slot: nat, e: Word)
    requires |m| == PHYS_WORDS && dir < FRAMES && slot < ENTRIES
    ensures forall s :: 0 <= s < ENTRIES ==>
              Pde(Poke(m, dir, slot, e), dir, s) == if s == slot then e else Pde(m, dir, s)
  {
    forall s | 0 <= s < ENTRIES ensures Pde(Poke(m, dir, slot, e), dir, s) == if s == slot then e else Pde(m, dir, s) {
      PokeAt(m, dir, slot, e, dir, s);
    }
  }

  // ---------------------------------------------------------------- inputs at which a frame is lost

  /** Every word full but word 32, which is `w`, and those from `n` on, which are clear. */
  function BitmapOf(n: nat, w: Word): (bm: seq<Word>)
    ensures |bm| == WORDS
  {
    seq<Word>(WORDS, (i: nat) => if i == RESERVED / 32 then w else if i < n then 0xFFFF_FFFF else 0)
  }

  /** In the start-up state a fault at address 0 is refused and takes frame 1024 from the bitmap. */
  lemma NullFaultLosesFrame(m: seq<Word>, dir: nat, id: nat)
    requires Initial(m, dir, id)
    ensures var bm := BitmapOf(0x20, 0);
            && Tables(m, bm, dir, id) && Refused(m, bm, dir, 0, 0) && LosesFrame(m, bm, dir, 0, 0)
            && IsLowestUnused(bm, RESERVED)
  {
    hide Tables;
    var bm := BitmapOf(0x20, 0);
    FullWords(bm, bm);
    InitialTables(m, bm, dir, id);
    assert !Used(bm, RESERVED);
  }

  /** With the start-up tables and one frame left, a fault at 4 MiB takes that frame for the page, finds none for a
      table and is refused. */
  lemma LastFrameIsLost(m: seq<Word>, dir: nat, id: nat)
    requires Initial(m, dir, id)
    ensures var bm := BitmapOf(WORDS, 0xFFFF_FFFE);
            && Tables(m, bm, dir, id) && Refused(m, bm, dir, 0x40_0000, 0) && LosesFrame(m, bm, dir, 0x40_0000, 0)
            && IsOnlyUnused(bm, RESERVED)
  {
    hide Tables, Bit, Pow2;
    var bm := BitmapOf(WORDS, 0xFFFF_FFFE);
    FullWords(bm, bm);
    InitialTables(m, bm, dir, id);
    InitialEntry(id, 1);
    WordIs32Bits();
    DoublePow2(32);
    BitUnfolds(0xFFFF_FFFE, 0);
    forall g | 0 <= g < FRAMES && g != RESERVED ensures Used(bm, g) {
      if g / 32 == RESERVED / 32 {
        BitUnfolds(0xFFFF_FFFE, g % 32);
        AllOnes(31, g % 32 - 1);
      } else {
        AllOnes(32, g % 32);
      }
    }
    assert IsOnlyUnused(bm, RESERVED);
    assert Slot(PageOf(0x40_0000)) == 1 && Pde(m, dir, 1) == 0;
  }

  // ---------------------------------------------------------------- faults in the recursive window

  /** A fault in the window of a slot without a table makes the new frame that table, contents and all: pages of
      the slot translate by whatever the frame held. The tables stay sound exactly when it held no entry that is
      open to user programs. */
  lemma WindowFault(m: seq<Word>, bm: seq<Word>, bm': seq<Word>, dir: nat, id: nat, s: nat, f: nat)
    requires Tables(m, bm, dir, id) && Normal(s) && !Present(Pde(m, dir, s))
    requires IsLowestUnused(bm, f) && |bm'| == WORDS && Marked(bm, bm', f)
    ensures 0x1000 * f < WORD_LIMIT
    ensures var m' := Poke(m, dir, s, NewEntry(0x1000 * f, MEM_RW));
            && (forall p :: 0 <= p < PAGES && Slot(p) != SELF && Slot(p) != s ==>
                  Translate(m', dir, p) == Translate(m, dir, p))
            && (forall p :: 0 <= p < PAGES && Slot(p) == s ==>
                  var t := At(m, f, Index(p));
                  FrameAt(m', dir, p) == if Present(t) then Some(FrameOf(t)) else None)
            && (Tables(m', bm', dir, id)
                <==> forall j :: 0 <= j < ENTRIES && Present(At(m, f, j)) ==> !User(At(m, f, j)))
  {
    NewEntryBits(0x1000 * f, MEM_RW);
    assert WantsRw(MEM_RW) && !WantsUser(MEM_RW) && FrameOf(0x1000 * f) == f && f >= RESERVED;
    hide FrameOf, Present, User, Writable, Used, WantsRw, WantsUser, NewEntry;
    var e := NewEntry(0x1000 * f, MEM_RW);
    var m' := Poke(m, dir, s, e);
    PokeSlot(m, dir, s, e);
    forall p | 0 <= p < PAGES && Slot(p) != SELF && Slot(p) != s && Present(Pde(m, dir, Slot(p)))
      ensures Pte(m', dir, p) == Pte(m, dir, p)
    {
      if Normal(Slot(p)) { assert TableAt(m, bm, dir, Slot(p)); }
      PokeBound(m, dir, Slot(p));
      PokeAt(m, dir, s, e, FrameOf(Pde(m, dir, Slot(p))), Index(p));
    }
    forall p | 0 <= p < PAGES && Slot(p) == s ensures Pte(m', dir, p) == At(m, f, Index(p)) {
      PokeAt(m, dir, s, e, f, Index(p));
    }
    forall t | Normal(t) ensures TableAt(m', bm', dir, t) {
      assert TableAt(m, bm, dir, t);
    }
    forall p | 0 <= p < PAGES && Normal(Slot(p)) && Slot(p) != s ensures RightsAt(m', dir, p) {
      assert RightsAt(m, dir, p);
    }
    if Tables(m', bm', dir, id) {
      forall j | 0 <= j < ENTRIES && Present(At(m, f, j)) ensures !User(At(m, f, j)) {
        assert Slot(s * ENTRIES + j) == s && Index(s * ENTRIES + j) == j;
        assert RightsAt(m', dir, s * ENTRIES + j);
      }
    }
  }

  /** In the start-up state, with a user entry left in the first free frame, a fault in the window of slot 1 breaks
      them. */
  lemma WindowFaultBreaks(m: seq<Word>, bm': seq<Word>, dir: nat, id: nat)
    requires Initial(m, dir, id) && At(m, RESERVED, 0) == 7
    requires |bm'| == WORDS && Marked(BitmapOf(0x20, 0), bm', RESERVED)
    ensures !Tables(Poke(m, dir, 1, NewEntry(0x1000 * RESERVED, MEM_RW)), bm', dir, id)
  {
    hide Tables, Marked, IsLowestUnused, Used, NewEntry;
    NullFaultLosesFrame(m, dir, id);
    InitialEntry(id, 1);
    EntryBits(0, 7);
    assert Pde(m, dir, 1) == 0;
    WindowFault(m, BitmapOf(0x20, 0), bm', dir, id, 1, RESERVED);
  }

  /** Such a fault leaves the pages that own frames alone. */
  lemma WindowFaultKeepsOwned(m: seq<Word>, bm: seq<Word>, bm': seq<Word>, dir: nat, id: nat, data: map<nat, nat>,
                              s: nat, f: nat)
    requires Tables(m, bm, dir, id) && Owned(m, bm, dir, data) && Normal(s) && !Present(Pde(m, dir, s))
    requires IsLowestUnused(bm, f) && |bm'| == WORDS && Marked(bm, bm', f)
    ensures 0x1000 * f < WORD_LIMIT
    ensures Owned(Poke(m, dir, s, NewEntry(0x1000 * f, MEM_RW)), bm', dir, data)
  {
    hide FrameOf, Present, User, Writable, Used, Translate, NewEntry, Poke, Tables, Pde;
    FrameZeroUsed(m, bm, dir, id);
    var m' := Poke(m, dir, s, NewEntry(0x1000 * f, MEM_RW));
    WindowFault(m, bm, bm', dir, id, s, f);
    NewEntryBits(0x1000 * f, MEM_RW);
    PokeSlot(m, dir, s, NewEntry(0x1000 * f, MEM_RW));
    forall p | p in data ensures FrameAt(m', dir, p) == Some(data[p]) {
      MappedNeedsTable(m, dir, p);
    }
    forall p, t | p in data && Normal(t) && Present(Pde(m', dir, t)) ensures data[p] != FrameOf(Pde(m', dir, t)) {
      if t == s { InFrame(f); }
    }
  }

  lemma InFrame(f: nat)
    ensures FrameOf(0x1000 * f) == f
  {
  }

  lemma MappedNeedsTable(m: seq<Word>, dir: nat, p: nat)
    requires |m| == PHYS_WORDS && dir < FRAMES && p < PAGES
    ensures FrameAt(m, dir, p).Some? ==> Present(Pde(m, dir, Slot(p)))
  {
  }
}
