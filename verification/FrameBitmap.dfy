/** The bitmap of physical page frames: 32 frames to a word, lowest bit first. */
module FrameBitmap {
  import opened Words
  import opened Arithmetic

  const FRAMES := 0x10_0000   // 2^32 bytes in pages of 4096
  const WORDS := 0x8000

  predicate Bit(w: nat, i: nat)
    decreases i
  {
    if i == 0 then w % 2 == 1 else Bit(w / 2, i - 1)
  }

  /** `w | (1 << i)` */
  function SetBit(w: nat, i: nat): nat
    decreases i
  {
    if i == 0 then (if w % 2 == 1 then w else w + 1) else 2 * SetBit(w / 2, i - 1) + w % 2
  }

  lemma {:induction false} SetBitSets(w: nat, i: nat, j: nat)
    ensures Bit(SetBit(w, i), j) <==> j == i || Bit(w, j)
    decreases i
  {
    hide Bit, SetBit;
    SetBitUnfolds(w, i);
    BitUnfolds(w, j);
    BitUnfolds(SetBit(w, i), j);
    if i > 0 && j > 0 { SetBitSets(w / 2, i - 1, j - 1); }
  }

  lemma BitUnfolds(w: nat, j: nat)
    ensures if j == 0 then Bit(w, j) == (w % 2 == 1) else Bit(w, j) == Bit(w / 2, j - 1)
  {
  }

  function Pow2(n: nat): (r: nat)
    ensures r > 0
  {
    if n == 0 then 1 else 2 * Pow2(n - 1)
  }

  lemma {:induction false} SetBitFits(w: nat, i: nat, n: nat)
    requires w < Pow2(n) && i < n
    ensures SetBit(w, i) < Pow2(n)
    decreases i
  {
    DoublePow2(n);
    SetBitUnfolds(w, i);
    hide Pow2, SetBit;
    if i > 0 { SetBitFits(w / 2, i - 1, n - 1); }
  }

  lemma DoublePow2(n: nat)
    ensures n > 0 ==> Pow2(n) == 2 * Pow2(n - 1)
  {
  }

  lemma SetBitUnfolds(w: nat, i: nat)
    ensures i > 0 ==> SetBit(w, i) == 2 * SetBit(w / 2, i - 1) + w % 2
    ensures i == 0 ==> SetBit(w, i) <= w + 1 && (w % 2 == 1 ==> SetBit(w, i) == w)
    ensures SetBit(w, i) / 2 == (if i == 0 then w / 2 else SetBit(w / 2, i - 1))
    ensures SetBit(w, i) % 2 == (if i == 0 then 1 else w % 2)
  {
  }

  lemma WordIs32Bits()
    ensures Pow2(32) == WORD_LIMIT
  {
    assert Pow2(8) == 256;
    assert Pow2(16) == 256 * 256 by { assert Pow2(12) == 16 * Pow2(8); }
    assert Pow2(24) == 256 * 65536 by { assert Pow2(20) == 16 * Pow2(16); }
    assert Pow2(28) == 16 * Pow2(24);
  }

  /** `__builtin_ctz(~w)`: the lowest bit of `w` that is clear. */
  function LowestClear(w: nat): nat
    decreases w
  {
    if w % 2 == 0 then 0 else 1 + LowestClear(w / 2)
  }

  lemma {:induction false} LowestClearIsLowest(w: nat, n: nat)
    requires w < Pow2(n) && w != Pow2(n) - 1
    ensures LowestClear(w) < n && !Bit(w, LowestClear(w))
    ensures forall j :: 0 <= j < LowestClear(w) ==> Bit(w, j)
    decreases n
  {
    if w % 2 == 1 {
      LowestClearIsLowest(w / 2, n - 1);
      forall j | 0 <= j < LowestClear(w) ensures Bit(w, j) {
        if j > 0 { assert Bit(w / 2, j - 1); }
      }
    }
  }

  lemma {:induction false} AllOnes(n: nat, j: nat)
    requires j < n
    ensures Bit(Pow2(n) - 1, j)
    decreases n
  {
    if j > 0 {
      AllOnes(n - 1, j - 1);
      assert (Pow2(n) - 1) / 2 == Pow2(n - 1) - 1;
    }
  }

  /** Frame `f` is marked used. */
  predicate Used(bm: seq<Word>, f: nat)
    requires |bm| == WORDS && f < FRAMES
  {
    Bit(bm[f / 32], f % 32)
  }

  ghost predicate AllUsed(bm: seq<Word>)
    requires |bm| == WORDS
  {
    forall f :: 0 <= f < FRAMES ==> Used(bm, f)
  }

  /** Exactly one frame is unused. */
  ghost predicate OneLeft(bm: seq<Word>)
    requires |bm| == WORDS
  {
    exists f :: 0 <= f < FRAMES && IsOnlyUnused(bm, f)
  }

  ghost predicate IsOnlyUnused(bm: seq<Word>, f: nat)
    requires |bm| == WORDS && f < FRAMES
  {
    !Used(bm, f) && forall g :: 0 <= g < FRAMES && g != f ==> Used(bm, g)
  }

  ghost predicate IsLowestUnused(bm: seq<Word>, f: nat)
    requires |bm| == WORDS
  {
    f < FRAMES && !Used(bm, f) && forall g :: 0 <= g < f ==> Used(bm, g)
  }

  /** Frame `f` has been marked used and no other. */
  ghost predicate Marked(bm: seq<Word>, bm': seq<Word>, f: nat)
    requires |bm| == |bm'| == WORDS
  {
    forall g :: 0 <= g < FRAMES ==> (Used(bm', g) <==> g == f || Used(bm, g))
  }

  /** Taking the lowest unused frame uses up the frames exactly when it was the last one. */
  lemma LastFrame(bm: seq<Word>, bm': seq<Word>, f: nat)
    requires |bm| == |bm'| == WORDS && IsLowestUnused(bm, f) && Marked(bm, bm', f)
    ensures AllUsed(bm') <==> OneLeft(bm)
    ensures bm' != bm && !AllUsed(bm)
  {
    hide Used;
    if OneLeft(bm) {
      var g :| 0 <= g < FRAMES && IsOnlyUnused(bm, g);
      assert g == f;
    }
    if AllUsed(bm') { assert IsOnlyUnused(bm, f); }
  }

  /** The lowest clear bit of the first word that is not full is the lowest unused frame. */
  lemma LowestFrame(bm: seq<Word>, i: nat)
    requires |bm| == WORDS && i < WORDS && bm[i] != 0xFFFF_FFFF
    requires forall g :: 0 <= g < 32 * i ==> Used(bm, g)
    ensures var bit := LowestClear(bm[i]); var f := i * 32 + bit;
            && bit < 32 && SetBit(bm[i], bit) < WORD_LIMIT
            && !Used(bm, f) && (forall g :: 0 <= g < f ==> Used(bm, g))
            && var bm' := bm[i := SetBit(bm[i], bit)];
            forall g :: 0 <= g < FRAMES ==> (Used(bm', g) <==> g == f || Used(bm, g))
  {
    hide Bit, SetBit, Pow2, LowestClear;
    WordIs32Bits();
    var w, bit := bm[i], LowestClear(bm[i]);
    LowestClearIsLowest(w, 32);
    SetBitFits(w, bit, 32);
    forall g | 0 <= g <= i * 32 + bit ensures Used(bm, g) <==> g != i * 32 + bit {
      if g >= 32 * i { DivMod(i, 32, g - 32 * i); }
    }
    forall g | 0 <= g < FRAMES
      ensures Used(bm[i := SetBit(w, bit)], g) <==> g == i * 32 + bit || Used(bm, g)
    {
      SetBitSets(w, bit, g % 32);
    }
  }

  lemma FullWord(bm: seq<Word>, i: nat)
    requires |bm| == WORDS && i < WORDS && bm[i] == 0xFFFF_FFFF
    requires forall g :: 0 <= g < 32 * i ==> Used(bm, g)
    ensures forall g :: 0 <= g < 32 * (i + 1) ==> Used(bm, g)
  {
    hide Bit, Pow2;
    WordIs32Bits();
    forall g | 32 * i <= g < 32 * (i + 1) ensures Used(bm, g) {
      DivMod(i, 32, g - 32 * i);
      AllOnes(32, g - 32 * i);
    }
  }

  /** `alloc_page`: mark the lowest unused frame and return its address, or 0 if there is none. */
  method AllocPage(bitmap: array<Word>) returns (page: Word)
    requires bitmap.Length == WORDS
    requires Used(bitmap[..], 0)
    modifies bitmap
    ensures page % 0x1000 == 0
    ensures if page == 0 then AllUsed(old(bitmap[..])) && bitmap[..] == old(bitmap[..])
            else IsLowestUnused(old(bitmap[..]), page / 0x1000)
                 && Marked(old(bitmap[..]), bitmap[..], page / 0x1000)
  {
    hide Used, SetBit, LowestClear;
    ghost var before := bitmap[..];
    for i := 0 to WORDS
      invariant bitmap[..] == before
      invariant forall g :: 0 <= g < 32 * i ==> Used(before, g)
    {
      if bitmap[i] != 0xFFFF_FFFF {
        LowestFrame(before, i);
        var bit := LowestClear(bitmap[i]);
        bitmap[i] := SetBit(bitmap[i], bit);
        DivMod(i * 32 + bit, 0x1000, 0);
        return (i * 32 + bit) * 0x1000;
      }
      FullWord(before, i);
    }
    return 0;
  }
}
