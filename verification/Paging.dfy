/** Two-level page tables reached through a recursive directory slot. */
module Paging {
  import opened Words
  import opened Arithmetic
  import opened FrameBitmap

  const ENTRIES := 1024
  const PHYS_WORDS := 0x4000_0000
  const PAGES := 0x10_0000
  const RESERVED := 1024   // frames marked used at start-up
  const HIGH := 768        // i_pdir(0xC0000000)
  const SELF := 1023       // the recursive slot

  // ---------------------------------------------------------------- entries

  predicate Present(e: nat) { e % 2 == 1 }

  predicate Writable(e: nat) { e / 2 % 2 == 1 }

  predicate User(e: nat) { e / 4 % 2 == 1 }

  function FrameOf(e: nat): nat { e / 0x1000 }

  /** `e | P_USER` */
  function SetUser(e: nat): nat { if User(e) then e else e + 4 }

  /** The three lowest bits of an entry, and the frame, which does not depend on them. */
  lemma LowBits(k: nat, low: nat)
    requires low < 8
    ensures Present(8 * k + low) == (low % 2 == 1)
    ensures Writable(8 * k + low) == (low / 2 % 2 == 1)
    ensures User(8 * k + low) == (low / 4 == 1)
    ensures FrameOf(8 * k + low) == k / 0x200
  {
    DivMod(4 * k + low / 2, 2, low % 2);
    DivMod(2 * k + low / 4, 2, low / 2 % 2);
    DivMod(2 * k + low / 4, 4, low % 4);
    DivMod(k, 2, low / 4);
    DivMod(k / 0x200, 0x1000, 8 * (k % 0x200) + low);
  }

  lemma EntryParts(e: Word)
    ensures var k, low := e / 8, e % 8; e == 8 * k + low && low < 8 && 8 * k + 7 < WORD_LIMIT
  {
  }

  lemma SetUserBits(e: Word)
    ensures Present(SetUser(e)) == Present(e) && Writable(SetUser(e)) == Writable(e)
    ensures FrameOf(SetUser(e)) == FrameOf(e)
    ensures User(SetUser(e)) && SetUser(e) < WORD_LIMIT && SetUser(e) / 8 == e / 8
  {
    EntryParts(e);
    var k, low := e / 8, e % 8;
    LowBits(k, low);
    hide Present, User, Writable, FrameOf;
    if !User(e) { LowBits(k, low + 4); }
  }

  /** The bits of an entry, and the frame number above the lowest twelve. */
  lemma EntryFormat(e: Word)
    ensures (Present(e) <==> Bit(e, 0)) && (Writable(e) <==> Bit(e, 1)) && (User(e) <==> Bit(e, 2))
    ensures e == 0x1000 * FrameOf(e) + e % 0x1000
    ensures SetUser(e) == SetBit(e, 2)
  {
    assert e / 2 / 2 == e / 4;
    BitUnfolds(e, 0);
    BitUnfolds(e, 1);
    BitUnfolds(e, 2);
    BitUnfolds(e / 2, 0);
    BitUnfolds(e / 2, 1);
    BitUnfolds(e / 4, 0);
  }

  // ---------------------------------------------------------------- translation

  function Slot(page: nat): nat { page / ENTRIES }

  function Index(page: nat): nat { page % ENTRIES }

  /** Word `i` of a frame. */
  function At(m: seq<Word>, frame: nat, i: nat): Word
    requires |m| == PHYS_WORDS && frame < FRAMES && i < ENTRIES
  {
    m[frame * ENTRIES + i]
  }

  function Pde(m: seq<Word>, dir: nat, slot: nat): Word
    requires |m| == PHYS_WORDS && dir < FRAMES && slot < ENTRIES
  {
    At(m, dir, slot)
  }

  function Pte(m: seq<Word>, dir: nat, page: nat): Word
    requires |m| == PHYS_WORDS && dir < FRAMES && page < PAGES
  {
    At(m, FrameOf(Pde(m, dir, Slot(page))), Index(page))
  }

  datatype Mapping = Mapping(frame: nat, writable: bool, user: bool)

  /** What a directory entry and a table entry grant together. */
  function Through(e: Word, t: Word): Mapping {
    Mapping(FrameOf(t), Writable(e) && Writable(t), User(e) && User(t))
  }

  /** The two-level walk: a page is mapped if both entries are present, with the rights both grant. */
  function Translate(m: seq<Word>, dir: nat, page: nat): Option<Mapping>
    requires |m| == PHYS_WORDS && dir < FRAMES && page < PAGES
  {
    var e, t := Pde(m, dir, Slot(page)), Pte(m, dir, page);
    if Present(e) && Present(t) then Some(Through(e, t)) else None
  }

  function FrameAt(m: seq<Word>, dir: nat, page: nat): Option<nat>
    requires |m| == PHYS_WORDS && dir < FRAMES && page < PAGES
  {
    var t := Translate(m, dir, page);
    if t.Some? then Some(t.value.frame) else None
  }

  /** Slots 0 and 768 share one table; slot 1023 is the directory itself. */
  predicate Normal(slot: nat) { slot < ENTRIES && slot != 0 && slot != HIGH && slot != SELF }

  predicate SameEntry(p: nat, q: nat) {
    Index(p) == Index(q) && (Slot(p) == Slot(q) || (Slot(p) in {0, HIGH} && Slot(q) in {0, HIGH}))
  }

  // ---------------------------------------------------------------- the invariant

  ghost predicate TableAt(m: seq<Word>, bm: seq<Word>, dir: nat, slot: nat)
    requires |m| == PHYS_WORDS && |bm| == WORDS && dir < FRAMES && slot < ENTRIES
  {
    var e := Pde(m, dir, slot);
    Present(e) ==> RESERVED <= FrameOf(e) && Used(bm, FrameOf(e)) && Writable(e)
  }

  /** A table entry never grants a user access that its directory entry withholds. */
  ghost predicate RightsAt(m: seq<Word>, dir: nat, page: nat)
    requires |m| == PHYS_WORDS && dir < FRAMES && page < PAGES
  {
    Present(Pde(m, dir, Slot(page))) && Present(Pte(m, dir, page)) && User(Pte(m, dir, page))
    ==> User(Pde(m, dir, Slot(page)))
  }

  ghost predicate Tables(m: seq<Word>, bm: seq<Word>, dir: nat, id: nat) {
    && |m| == PHYS_WORDS && |bm| == WORDS
    && 0 < dir < RESERVED && 0 < id < RESERVED && dir != id
    && Present(Pde(m, dir, 0)) && FrameOf(Pde(m, dir, 0)) == id
    && Present(Pde(m, dir, HIGH)) && FrameOf(Pde(m, dir, HIGH)) == id
    && Present(Pde(m, dir, SELF)) && FrameOf(Pde(m, dir, SELF)) == dir
    && (forall f :: 0 <= f < RESERVED ==> Used(bm, f))
    && (forall s :: Normal(s) ==> TableAt(m, bm, dir, s))
    && (forall s, t :: Normal(s) && Normal(t) && s != t && Present(Pde(m, dir, s)) && Present(Pde(m, dir, t)) ==>
          FrameOf(Pde(m, dir, s)) != FrameOf(Pde(m, dir, t)))
    && (forall p :: 0 <= p < PAGES && Normal(Slot(p)) ==> RightsAt(m, dir, p))
  }

  /** The recursive slot: the window for slot `s` shows the table of slot `s`, so writing through it writes the
      table. */
  lemma RecursiveWindow(m: seq<Word>, bm: seq<Word>, dir: nat, id: nat, s: nat)
    requires Tables(m, bm, dir, id) && s < ENTRIES && Present(Pde(m, dir, s))
    ensures FrameAt(m, dir, (0xFFC0_0000 + 0x1000 * s) / 0x1000) == Some(FrameOf(Pde(m, dir, s)))
  {
    assert Slot(SELF * ENTRIES + s) == SELF && Index(SELF * ENTRIES + s) == s;
  }

  // ---------------------------------------------------------------- the writes of map_page

  /** Word `frame`, `i` set to `e`. */
  function Poke(m: seq<Word>, frame: nat, i: nat, e: Word): (r: seq<Word>)
    requires |m| == PHYS_WORDS && frame < FRAMES && i < ENTRIES
    ensures |r| == PHYS_WORDS
  {
    m[frame * ENTRIES + i := e]
  }

  lemma PokeAt(m: seq<Word>, frame: nat, i: nat, e: Word, g: nat, j: nat)
    requires |m| == PHYS_WORDS && frame < FRAMES && i < ENTRIES && g < FRAMES && j < ENTRIES
    ensures At(Poke(m, frame, i, e), g, j) == if g == frame && j == i then e else At(m, g, j)
  {
  }

  /** Frame `f` filled with zeros. */
  ghost predicate IsCleared(m: seq<Word>, m': seq<Word>, f: nat)
    requires f < FRAMES
  {
    && |m| == |m'| == PHYS_WORDS
    && (forall g, j :: 0 <= g < FRAMES && 0 <= j < ENTRIES ==> At(m', g, j) == if g == f then 0 else At(m, g, j))
  }

  /** A fresh zeroed table in an empty slot maps nothing and disturbs nothing. */
  lemma NewTable(m: seq<Word>, m1: seq<Word>, bm: seq<Word>, bm': seq<Word>, dir: nat, id: nat, s: nat, e: Word)
    requires Tables(m, bm, dir, id) && Normal(s) && !Present(Pde(m, dir, s))
    requires Present(e) && Writable(e) && RESERVED <= FrameOf(e) && !Used(bm, FrameOf(e))
    requires |bm'| == WORDS && forall g :: 0 <= g < FRAMES ==> (Used(bm', g) <==> g == FrameOf(e) || Used(bm, g))
    requires IsCleared(Poke(m, dir, s, e), m1, FrameOf(e))
    ensures Tables(m1, bm', dir, id)
    ensures Pde(m1, dir, s) == e
    ensures forall p :: 0 <= p < PAGES && Slot(p) != SELF ==> Translate(m1, dir, p) == Translate(m, dir, p)
  {
    var m0 := Poke(m, dir, s, e);
    var f := FrameOf(e);
    forall t | 0 <= t < ENTRIES ensures Pde(m1, dir, t) == if t == s then e else Pde(m, dir, t) {
      PokeAt(m, dir, s, e, dir, t);
    }
    forall p | 0 <= p < PAGES && Slot(p) != SELF && Slot(p) != s && Present(Pde(m, dir, Slot(p)))
      ensures Pte(m1, dir, p) == Pte(m, dir, p)
    {
      var g := FrameOf(Pde(m, dir, Slot(p)));
      if Normal(Slot(p)) { assert TableAt(m, bm, dir, Slot(p)); }
      PokeAt(m, dir, s, e, g, Index(p));
    }
    forall p | 0 <= p < PAGES && Slot(p) == s ensures Pte(m1, dir, p) == 0 {
    }
    forall t | Normal(t) ensures TableAt(m1, bm', dir, t) {
      assert TableAt(m, bm, dir, t);
    }
    forall p | 0 <= p < PAGES && Normal(Slot(p)) ensures RightsAt(m1, dir, p) {
      assert RightsAt(m, dir, p);
    }
  }

  /** What the translation of a page becomes when slot `s` is opened to user programs: user access if its table
      entry grants that. */
  function Granted(m: seq<Word>, dir: nat, page: nat, s: nat): Option<Mapping>
    requires |m| == PHYS_WORDS && dir < FRAMES && page < PAGES
  {
    var t := Translate(m, dir, page);
    if Slot(page) == s && t.Some? && User(Pte(m, dir, page)) then Some(t.value.(user := true)) else t
  }

  /** In a normal slot no entry waits for its slot to be opened. */
  lemma NothingGranted(m: seq<Word>, bm: seq<Word>, dir: nat, id: nat, page: nat, s: nat)
    requires Tables(m, bm, dir, id) && page < PAGES && Normal(s)
    ensures Granted(m, dir, page, s) == Translate(m, dir, page)
  {
    hide FrameOf, Present, User, Writable;
    if Slot(page) == s { assert RightsAt(m, dir, page); }
  }

  /** Opening a slot to user programs keeps every frame, and grants a user exactly what the entries of its table
      grant. In a normal slot that is nothing yet. */
  lemma OpenSlot(m: seq<Word>, bm: seq<Word>, dir: nat, id: nat, s: nat)
    requires Tables(m, bm, dir, id) && s < ENTRIES && s != SELF
    requires Present(Pde(m, dir, s)) && !User(Pde(m, dir, s))
    ensures SetUser(Pde(m, dir, s)) < WORD_LIMIT
    ensures var m' := Poke(m, dir, s, SetUser(Pde(m, dir, s)));
            && Tables(m', bm, dir, id)
            && (forall p :: 0 <= p < PAGES && Slot(p) != SELF ==> Translate(m', dir, p) == Granted(m, dir, p, s))
            && (Normal(s) ==> forall p :: 0 <= p < PAGES && Slot(p) != SELF ==>
                  Translate(m', dir, p) == Translate(m, dir, p))
            && (forall t :: 0 <= t < ENTRIES ==>
                  Pde(m', dir, t) == if t == s then SetUser(Pde(m, dir, s)) else Pde(m, dir, t))
  {
    hide SetUser, FrameOf, Present, User, Writable;
    var e := SetUser(Pde(m, dir, s));
    SetUserBits(Pde(m, dir, s));
    var m' := Poke(m, dir, s, e);
    forall t | 0 <= t < ENTRIES ensures Pde(m', dir, t) == if t == s then e else Pde(m, dir, t) {
      PokeAt(m, dir, s, e, dir, t);
    }
    forall p | 0 <= p < PAGES && Slot(p) != SELF && Present(Pde(m, dir, Slot(p)))
      ensures Pte(m', dir, p) == Pte(m, dir, p)
    {
      var g := FrameOf(Pde(m, dir, Slot(p)));
      if Normal(Slot(p)) { assert TableAt(m, bm, dir, Slot(p)); }
      PokeBound(m, dir, Slot(p));
      PokeAt(m, dir, s, e, g, Index(p));
    }
    forall p | 0 <= p < PAGES && Slot(p) != SELF ensures Translate(m', dir, p) == Granted(m, dir, p, s) {
    }
    forall p | 0 <= p < PAGES && Slot(p) != SELF && Normal(s) ensures Translate(m', dir, p) == Translate(m, dir, p) {
      NothingGranted(m, bm, dir, id, p, s);
    }
    forall t | Normal(t) ensures TableAt(m', bm, dir, t) {
      assert TableAt(m, bm, dir, t);
    }
    forall p | 0 <= p < PAGES && Normal(Slot(p)) ensures RightsAt(m', dir, p) {
      assert RightsAt(m, dir, p);
    }
  }

  lemma PokeBound(m: seq<Word>, dir: nat, s: nat)
    requires |m| == PHYS_WORDS && dir < FRAMES && s < ENTRIES
    ensures FrameOf(Pde(m, dir, s)) < FRAMES
  {
  }

  /** Writing the table entry of one page maps that page, and its alias if the slot is shared, and no other. */
  lemma WriteEntry(m: seq<Word>, bm: seq<Word>, dir: nat, id: nat, page: nat, t: Word)
    requires Tables(m, bm, dir, id) && page < PAGES && Slot(page) != SELF
    requires Present(Pde(m, dir, Slot(page))) && Present(t) && (User(t) ==> User(Pde(m, dir, Slot(page))))
    ensures var m' := Poke(m, FrameOf(Pde(m, dir, Slot(page))), Index(page), t);
            && Tables(m', bm, dir, id)
            && (forall s :: 0 <= s < ENTRIES ==> Pde(m', dir, s) == Pde(m, dir, s))
            && (forall p :: 0 <= p < PAGES && Slot(p) != SELF && !SameEntry(p, page) ==>
                  Translate(m', dir, p) == Translate(m, dir, p))
            && (forall p :: 0 <= p < PAGES && SameEntry(p, page) ==>
                  Translate(m', dir, p) == Some(Through(Pde(m, dir, Slot(p)), t)))
            && (Normal(Slot(page)) ==> Translate(m', dir, page) == Some(Mapping(FrameOf(t), Writable(t), User(t))))
  {
    hide FrameOf, Present, User, Writable;
    var T := FrameOf(Pde(m, dir, Slot(page)));
    PokeBound(m, dir, Slot(page));
    if Normal(Slot(page)) { assert TableAt(m, bm, dir, Slot(page)); }
    var m' := Poke(m, T, Index(page), t);
    forall s | 0 <= s < ENTRIES ensures Pde(m', dir, s) == Pde(m, dir, s) {
      PokeAt(m, T, Index(page), t, dir, s);
    }
    forall p | 0 <= p < PAGES && Slot(p) != SELF && Present(Pde(m, dir, Slot(p)))
      ensures Pte(m', dir, p) == if SameEntry(p, page) then t else Pte(m, dir, p)
    {
      var g := FrameOf(Pde(m, dir, Slot(p)));
      if Normal(Slot(p)) { assert TableAt(m, bm, dir, Slot(p)); }
      PokeBound(m, dir, Slot(p));
      PokeAt(m, T, Index(page), t, g, Index(p));
    }
    forall s | Normal(s) ensures TableAt(m', bm, dir, s) {
      assert TableAt(m, bm, dir, s);
    }
    forall p | 0 <= p < PAGES && Normal(Slot(p)) ensures RightsAt(m', dir, p) {
      assert RightsAt(m, dir, p);
    }
  }
}
