/** The memory writes of `kmalloc` and `kfree`, one step at a time, and the block list after each. */
module HeapSteps {
  import opened Words
  import opened HeapBlocks
  import opened HeapMemory

  // ---------------------------------------------------------------- the writes, on the words alone

  /** Replace the flags byte of the header at `h`. */
  function MarkWords(m: seq<Word>, h: nat, flags: nat): seq<Word>
    requires h + 1 < |m| && flags < 256
  {
    m[h + 1 := WithFlags(m[h + 1], flags)]
  }

  /** Enlarge the block at `h` and point the footer of its last part back at it. */
  function FuseWords(m: seq<Word>, h: nat, size: nat): seq<Word>
    requires h + 2 + size < |m| < WORD_LIMIT
  {
    m[h := size][h + 2 + size := h]
  }

  /** Cut the block of `size` words at `h` down to `want` words: new footer, new header, old footer, old header. */
  function SplitWords(m: seq<Word>, h: nat, size: nat, want: nat): seq<Word>
    requires want + MIN_SPLIT <= size && h + 2 + size < |m| < WORD_LIMIT
  {
    var n := h + want + OVERHEAD;
    m[h + 2 + want := h]
     [n := size - want - OVERHEAD]
     [n + 1 := WithFlags(m[n + 1], ClearPresent(FlagsOf(m[n + 1])))]
     [h + 2 + size := n]
     [h := want]
  }

  /** Write a whole new block at `h`. */
  function GrowWords(m: seq<Word>, h: nat, want: nat, flags: nat): seq<Word>
    requires h + want + OVERHEAD <= |m| < WORD_LIMIT && flags < 256
  {
    m[h + 1 := WithFlags(m[h + 1], flags)][h := want][h + 2 + want := h]
  }

  // ---------------------------------------------------------------- the same writes, on the blocks they touch

  lemma MarkLocal(m: seq<Word>, h: nat, b: Block, flags: nat, user: bool)
    requires Tiled(m, h, [b], user) && flags < 256
    requires HasPresent(flags) ==> HasUser(flags) == user
    ensures Tiled(MarkWords(m, h, flags), h, [Block(b.size, HasPresent(flags))], user)
    ensures SameOutside(m, MarkWords(m, h, flags), h, h + Span([b]))
    ensures SameLive(m, MarkWords(m, h, flags), h, [b])
    ensures Span([b]) == Span([Block(b.size, HasPresent(flags))])
  {
    var m' := MarkWords(m, h, flags);
    assert FlagsOf(m'[h + 1]) == flags;
    OneBlock(m, h, b, user, h);
    OneBlock(m', h, Block(b.size, HasPresent(flags)), user, h);
    OneBlock(m, h, b, user, h + 1);
  }

  lemma FuseLocal(m: seq<Word>, h: nat, x: Block, y: Block, user: bool)
    requires Tiled(m, h, [x, y], user) && !x.used && !y.used && |m| < WORD_LIMIT
    ensures var size := x.size + OVERHEAD + y.size;
            && h + 2 + size < |m|
            && Tiled(FuseWords(m, h, size), h, [Block(size, false)], user)
            && SameOutside(m, FuseWords(m, h, size), h, h + Span([x, y]))
            && SameLive(m, FuseWords(m, h, size), h, [x, y])
            && Span([x, y]) == Span([Block(size, false)])
  {
    var size := x.size + OVERHEAD + y.size;
    TwoBlocks(m, h, x, y, user, h);
    OneBlock(m, h, x, user, h);
    OneBlock(m, h + x.size + OVERHEAD, y, user, h);
    var m' := FuseWords(m, h, size);
    OneBlock(m', h, Block(size, false), user, h);
    TwoBlocks(m, h, x, y, user, h + 2 + size);
    OneBlock(m, h, x, user, h + 2 + size);
    OneBlock(m, h + x.size + OVERHEAD, y, user, h + 2 + size);
  }

  lemma SplitLocal(m: seq<Word>, h: nat, b: Block, want: nat, user: bool)
    requires Tiled(m, h, [b], user) && b.used && Splits(b, want) && |m| < WORD_LIMIT
    ensures h + 2 + b.size < |m|
    ensures Tiled(SplitWords(m, h, b.size, want), h, [Block(want, true), Block(b.size - want - OVERHEAD, false)], user)
    ensures SameOutside(m, SplitWords(m, h, b.size, want), h, h + Span([b]))
    ensures Span([b]) == Span([Block(want, true), Block(b.size - want - OVERHEAD, false)])
  {
    var n := h + want + OVERHEAD;
    var x, y := Block(want, true), Block(b.size - want - OVERHEAD, false);
    OneBlock(m, h, b, user, 0);
    FlagBits(FlagsOf(m[n + 1]));
    var m' := SplitWords(m, h, b.size, want);
    assert FlagsOf(m'[n + 1]) == ClearPresent(FlagsOf(m[n + 1]));
    OneBlock(m', h, x, user, 0);
    OneBlock(m', n, y, user, 0);
    TwoBlocks(m', h, x, y, user, 0);
  }

  // ---------------------------------------------------------------- the steps in their arena

  lemma OpenAt(m: seq<Word>, at: nat, pre: seq<Block>, mid: seq<Block>, suf: seq<Block>, user: bool)
    requires Tiled(m, at, pre + (mid + suf), user)
    ensures Tiled(m, at + Span(pre), mid, user)
  {
    TiledConcat(m, at, pre, mid + suf, user);
    TiledConcat(m, at + Span(pre), mid, suf, user);
  }

  lemma MarkStep(m: seq<Word>, at: nat, bs: seq<Block>, k: nat, flags: nat, user: bool)
    requires k < |bs| && Tiled(m, at, bs, user) && flags < 256
    requires HasPresent(flags) ==> HasUser(flags) == user
    ensures var h := at + Span(bs[..k]);
            && h + 1 < |m|
            && Tiled(MarkWords(m, h, flags), at, bs[k := Block(bs[k].size, HasPresent(flags))], user)
            && SameLive(m, MarkWords(m, h, flags), at, bs)
            && SameOutside(m, MarkWords(m, h, flags), at, at + Span(bs))
  {
    hide Tiled, IsLiveWord, SameLive, MarkWords;
    var h := at + Span(bs[..k]);
    var pre, suf, b := bs[..k], bs[k + 1..], Block(bs[k].size, HasPresent(flags));
    assert bs == pre + ([bs[k]] + suf);
    OpenAt(m, at, pre, [bs[k]], suf, user);
    MarkLocal(m, h, bs[k], flags, user);
    Rewrite(m, MarkWords(m, h, flags), at, pre, [bs[k]], [b], suf, user);
    assert bs[k := b] == pre + ([b] + suf);
    SpanTake(bs, k);
  }

  lemma FuseStep(m: seq<Word>, at: nat, bs: seq<Block>, k: nat, user: bool)
    requires k + 1 < |bs| && Tiled(m, at, bs, user)
    requires !bs[k].used && !bs[k + 1].used
    requires |m| < WORD_LIMIT
    ensures var h := at + Span(bs[..k]);
            var size := bs[k].size + OVERHEAD + bs[k + 1].size;
            && h + 2 + size < |m|
            && Tiled(FuseWords(m, h, size), at, Fuse(bs, k), user)
            && SameLive(m, FuseWords(m, h, size), at, bs)
            && SameOutside(m, FuseWords(m, h, size), at, at + Span(bs))
  {
    var h := at + Span(bs[..k]);
    hide Tiled, IsLiveWord, SameLive, FuseWords, Span, SameOutside;
    var size := bs[k].size + OVERHEAD + bs[k + 1].size;
    FuseShape(bs, k);
    hide Fuse;
    FuseBetween(m, at, bs[..k], bs[k], bs[k + 1], bs[k + 2..], user);
  }

  lemma FuseShape(bs: seq<Block>, k: nat)
    requires k + 1 < |bs|
    ensures bs == bs[..k] + ([bs[k], bs[k + 1]] + bs[k + 2..])
    ensures Fuse(bs, k) == bs[..k] + ([Block(bs[k].size + OVERHEAD + bs[k + 1].size, false)] + bs[k + 2..])
  {
  }

  lemma FuseBetween(m: seq<Word>, at: nat, pre: seq<Block>, x: Block, y: Block, suf: seq<Block>, user: bool)
    requires Tiled(m, at, pre + ([x, y] + suf), user) && !x.used && !y.used && |m| < WORD_LIMIT
    ensures var h, size := at + Span(pre), x.size + OVERHEAD + y.size;
            && h + 2 + size < |m|
            && Tiled(FuseWords(m, h, size), at, pre + ([Block(size, false)] + suf), user)
            && SameLive(m, FuseWords(m, h, size), at, pre + ([x, y] + suf))
            && SameOutside(m, FuseWords(m, h, size), at, at + Span(pre + ([x, y] + suf)))
  {
    var h, size := at + Span(pre), x.size + OVERHEAD + y.size;
    hide Tiled, SameLive, FuseWords, Span, SameOutside;
    OpenAt(m, at, pre, [x, y], suf, user);
    FuseLocal(m, h, x, y, user);
    Rewrite(m, FuseWords(m, h, size), at, pre, [x, y], [Block(size, false)], suf, user);
  }

  /** Mark a free block present and, if it is large enough, split it. */
  function TakeWords(m: seq<Word>, h: nat, size: nat, want: nat, flags: nat): seq<Word>
    requires h + 2 + size < |m| < WORD_LIMIT && flags < 256
  {
    var m1 := MarkWords(m, h, flags);
    if want + MIN_SPLIT <= size then SplitWords(m1, h, size, want) else m1
  }

  lemma FlagsWritten(w: Word, flags: nat)
    requires flags < 256
    ensures FlagsOf(WithFlags(w, flags)) == flags
  {
  }

  lemma TakeFlags(m: seq<Word>, h: nat, size: nat, want: nat, flags: nat)
    requires h + 2 + size < |m| < WORD_LIMIT && flags < 256
    ensures FlagsOf(TakeWords(m, h, size, want, flags)[h + 1]) == flags
  {
    FlagsWritten(m[h + 1], flags);
    hide FlagsOf, WithFlags;
  }

  lemma FreeNotLive(h: nat, b: Block)
    requires !b.used
    ensures forall w :: !IsLiveWord(h, [b], w)
  {
    forall w ensures !IsLiveWord(h, [b], w) {
      assert [b][1..] == [];
    }
  }

  lemma TakeLocal(m: seq<Word>, h: nat, b: Block, want: nat, flags: nat, user: bool)
    requires Tiled(m, h, [b], user) && Fits(b, want)
    requires flags < 256 && HasPresent(flags) && HasUser(flags) == user && |m| < WORD_LIMIT
    ensures h + 2 + b.size < |m|
    ensures Tiled(TakeWords(m, h, b.size, want, flags), h, Carve(b, want), user)
    ensures SameOutside(m, TakeWords(m, h, b.size, want, flags), h, h + Span([b]))
    ensures Span([b]) == Span(Carve(b, want))
  {
    OneBlock(m, h, b, user, 0);
    MarkLocal(m, h, b, flags, user);
    if Splits(b, want) {
      SplitLocal(MarkWords(m, h, flags), h, Block(b.size, true), want, user);
    }
  }

  lemma TakeStep(m: seq<Word>, at: nat, bs: seq<Block>, k: nat, want: nat, flags: nat, user: bool)
    requires k < |bs| && Tiled(m, at, bs, user) && Fits(bs[k], want)
    requires flags < 256 && HasPresent(flags) && HasUser(flags) == user && |m| < WORD_LIMIT
    ensures var h := at + Span(bs[..k]);
            && h + 2 + bs[k].size < |m|
            && var m' := TakeWords(m, h, bs[k].size, want, flags);
            && Tiled(m', at, bs[..k] + Carve(bs[k], want) + bs[k + 1..], user)
            && SameLive(m, m', at, bs)
            && SameOutside(m, m', at, at + Span(bs))
            && FlagsOf(m'[h + 1]) == flags
  {
    hide Tiled, IsLiveWord, TakeWords, Carve, FlagsOf, Span;
    var h := at + Span(bs[..k]);
    var pre, mid, suf, mid' := bs[..k], [bs[k]], bs[k + 1..], Carve(bs[k], want);
    assert bs == pre + (mid + suf);
    OpenAt(m, at, pre, mid, suf, user);
    TakeLocal(m, h, bs[k], want, flags, user);
    FreeNotLive(h, bs[k]);
    SpanOne(bs[k]);
    TakeFlags(m, h, bs[k].size, want, flags);
    var m' := TakeWords(m, h, bs[k].size, want, flags);
    Rewrite(m, m', at, pre, mid, mid', suf, user);
    assert pre + mid' + suf == pre + (mid' + suf);
    SpanTake(bs, k);
  }

  /** A fresh block written just past the last one. */
  lemma GrowStep(m: seq<Word>, at: nat, bs: seq<Block>, want: nat, flags: nat, user: bool)
    requires Tiled(m, at, bs, user)
    requires at + Span(bs) + want + OVERHEAD <= |m| < WORD_LIMIT
    requires flags < 256 && HasPresent(flags) && HasUser(flags) == user
    ensures var h := at + Span(bs);
            var m' := GrowWords(m, h, want, flags);
            && Tiled(m', at, bs + [Block(want, true)], user)
            && SameLive(m, m', at, bs)
            && SameOutside(m, m', h, h + want + OVERHEAD)
            && FlagsOf(m'[h + 1]) == flags
  {
    FlagsWritten(m[at + Span(bs) + 1], flags);
    hide Tiled, IsLiveWord, FlagsOf, HasPresent, HasUser, WithFlags, Span;
    var h := at + Span(bs);
    var m' := GrowWords(m, h, want, flags);
    assert m'[h + 1] == WithFlags(m[h + 1], flags);
    TiledElsewhere(m, m', at, bs, user);
    OneBlock(m', h, Block(want, true), user, 0);
    TiledConcat(m', at, bs, [Block(want, true)], user);
    forall w | 0 <= w < |m| && IsLiveWord(at, bs, w) ensures m'[w] == m[w] {
      LiveWordInside(at, bs, w);
    }
  }

  /** An arena that a change stays clear of is laid out as before. */
  lemma OtherArena(m: seq<Word>, m': seq<Word>, at: nat, bs: seq<Block>, user: bool, lo: nat, hi: nat)
    requires Tiled(m, at, bs, user) && SameOutside(m, m', lo, hi)
    requires hi <= at || at + Span(bs) <= lo
    ensures Tiled(m', at, bs, user) && SameLive(m, m', at, bs)
  {
    TiledElsewhere(m, m', at, bs, user);
    forall w | 0 <= w < |m| && IsLiveWord(at, bs, w) ensures m'[w] == m[w] {
      LiveWordInside(at, bs, w);
    }
  }

  // ---------------------------------------------------------------- the three steps of a release

  lemma UnmarkFrame(m: seq<Word>, at: nat, bs: seq<Block>, k: nat, flags: nat)
    requires k < |bs| && flags < 256
    requires at + Span(bs[..k]) + 1 < |m|
    ensures OnlyMeta(m, MarkWords(m, at + Span(bs[..k]), flags), at, bs)
  {
    var h := at + Span(bs[..k]);
    MetaSplit(at, bs, k, h + 1);
  }

  lemma FuseFrame(m: seq<Word>, at: nat, bs: seq<Block>, k: nat)
    requires k + 1 < |bs| && |m| < WORD_LIMIT
    requires at + Span(bs[..k]) + 2 + bs[k].size + OVERHEAD + bs[k + 1].size < |m|
    ensures OnlyMeta(m, FuseWords(m, at + Span(bs[..k]), bs[k].size + OVERHEAD + bs[k + 1].size), at, bs)
  {
    var h := at + Span(bs[..k]);
    SpanTake(bs, k);
    MetaSplit(at, bs, k, h);
    MetaSplit(at, bs, k + 1, h + 2 + bs[k].size + OVERHEAD + bs[k + 1].size);
  }

  /** Absorb the block to the right of the one at `h` if there is one below `end` and its header allows it.
      Reads are guarded here; on a tiled arena the guards never fail. */
  function RightWords(m: seq<Word>, h: nat, end: nat): seq<Word>
    requires |m| < WORD_LIMIT
  {
    if h >= |m| then m else
    var right := h + m[h] + OVERHEAD;
    if right < end && right + 1 < |m| && !Present(m[right + 1]) && m[right] <= MAX_COALESCE
       && right + 2 + m[right] < |m|
    then FuseWords(m, h, m[h] + OVERHEAD + m[right])
    else m
  }

  /** Let the block to the left of the one at `h` absorb it, if there is one at or above `start` and its
      header allows it. */
  function LeftWords(m: seq<Word>, h: nat, start: nat): seq<Word>
    requires |m| < WORD_LIMIT
  {
    if !(start < h < |m|) then m else
    var left := m[h - 1];
    if left + 1 < |m| && !Present(m[left + 1]) && m[left] <= MAX_COALESCE && left + 2 + m[left] + OVERHEAD + m[h] < |m|
    then FuseWords(m, left, m[left] + OVERHEAD + m[h])
    else m
  }

  lemma RightNeighbour(m: seq<Word>, at: nat, bs: seq<Block>, k: nat, user: bool)
    requires k < |bs| && Tiled(m, at, bs, user) && at + Span(bs) <= |m|
    ensures var h := at + Span(bs[..k]);
            var right := h + bs[k].size + OVERHEAD;
            && right <= |m| && m[h] == bs[k].size
            && (right < at + Span(bs) <==> k + 1 < |bs|)
            && (k + 1 < |bs| ==>
                  && right + bs[k + 1].size + 2 < |m| && m[right] == bs[k + 1].size
                  && Present(m[right + 1]) == bs[k + 1].used)
  {
    LastSpan(bs, k);
    hide Tiled, Span, Present, HasUser;
    TiledAt(m, at, bs, user, k);
    if k + 1 < |bs| { TiledAt(m, at, bs, user, k + 1); }
  }

  lemma LastSpan(bs: seq<Block>, k: nat)
    requires k < |bs|
    ensures Span(bs[..k + 1]) == Span(bs[..k]) + bs[k].size + OVERHEAD
    ensures Span(bs) >= Span(bs[..k + 1])
    ensures Span(bs) > Span(bs[..k + 1]) <==> k + 1 < |bs|
  {
    SpanTake(bs, k);
    if k + 1 == |bs| { assert bs[k + 1..] == []; }
  }

  /** The tests `kfree` makes on the words to the right decide whether block `k` can absorb its neighbour. */
  lemma RightTest(m: seq<Word>, at: nat, bs: seq<Block>, k: nat, user: bool)
    requires k < |bs| && Tiled(m, at, bs, user) && at + Span(bs) <= |m| < WORD_LIMIT
    ensures var h := at + Span(bs[..k]);
            if MergesRight(bs, k) then
              && h + 2 + bs[k].size + OVERHEAD + bs[k + 1].size < |m|
              && RightWords(m, h, at + Span(bs)) == FuseWords(m, h, bs[k].size + OVERHEAD + bs[k + 1].size)
            else RightWords(m, h, at + Span(bs)) == m
  {
    RightNeighbour(m, at, bs, k, user);
    hide Tiled, FuseWords, Span, Present;
  }

  lemma LeftNeighbour(m: seq<Word>, at: nat, bs: seq<Block>, k: nat, user: bool)
    requires k < |bs| && Tiled(m, at, bs, user) && at + Span(bs) <= |m|
    ensures var h := at + Span(bs[..k]);
            && h + bs[k].size + 2 < |m| && m[h] == bs[k].size
            && (h > at <==> k > 0)
            && (k > 0 ==>
                  var left := at + Span(bs[..k - 1]);
                  && m[h - 1] == left && h == left + bs[k - 1].size + OVERHEAD
                  && m[left] == bs[k - 1].size
                  && Present(m[left + 1]) == bs[k - 1].used)
  {
    hide Tiled, Span, Present, HasUser;
    OwnWords(m, at, bs, k, user);
    if k > 0 {
      WordsBefore(m, at, bs, k, user);
    } else {
      assert bs[..k] == [];
      SpanOfNone();
    }
  }

  /** The words of the block itself. */
  lemma OwnWords(m: seq<Word>, at: nat, bs: seq<Block>, k: nat, user: bool)
    requires k < |bs| && Tiled(m, at, bs, user)
    ensures var h := at + Span(bs[..k]);
            && h + bs[k].size + 2 < |m| && m[h] == bs[k].size && Present(m[h + 1]) == bs[k].used
            && m[h + 2 + bs[k].size] == h
  {
    hide Tiled, Span, Present, HasUser;
    TiledAt(m, at, bs, user, k);
  }

  /** The words of the block below it, whose footer ends where it begins. */
  lemma WordsBefore(m: seq<Word>, at: nat, bs: seq<Block>, k: nat, user: bool)
    requires 0 < k < |bs| && Tiled(m, at, bs, user)
    ensures var left, h := at + Span(bs[..k - 1]), at + Span(bs[..k]);
            && h == left + bs[k - 1].size + OVERHEAD && h <= |m|
            && m[h - 1] == left && m[left] == bs[k - 1].size && Present(m[left + 1]) == bs[k - 1].used
  {
    hide Tiled, Span, Present, HasUser;
    OwnWords(m, at, bs, k - 1, user);
    SpanTake(bs, k - 1);
  }

  lemma SpanOfNone()
    ensures Span([]) == 0
  {
  }

  lemma LeftTest(m: seq<Word>, at: nat, bs: seq<Block>, k: nat, user: bool)
    requires k < |bs| && Tiled(m, at, bs, user) && at + Span(bs) <= |m| < WORD_LIMIT
    ensures var h := at + Span(bs[..k]);
            if MergesLeft(bs, k) then
              var left := at + Span(bs[..k - 1]);
              && left + 2 + bs[k - 1].size + OVERHEAD + bs[k].size < |m|
              && LeftWords(m, h, at) == FuseWords(m, left, bs[k - 1].size + OVERHEAD + bs[k].size)
            else LeftWords(m, h, at) == m
  {
    LeftNeighbour(m, at, bs, k, user);
    hide Tiled, FuseWords, Span, Present;
  }

  lemma RightStep(m: seq<Word>, at: nat, bs: seq<Block>, k: nat, user: bool)
    requires k < |bs| && Tiled(m, at, bs, user) && !bs[k].used && at + Span(bs) <= |m| < WORD_LIMIT
    ensures var m' := RightWords(m, at + Span(bs[..k]), at + Span(bs));
            |m'| == |m| && Tiled(m', at, FreeRight(bs, k), user) && OnlyMeta(m, m', at, bs)
  {
    hide Tiled, IsMeta, Span, Fuse, RightWords;
    RightTest(m, at, bs, k, user);
    if MergesRight(bs, k) {
      FuseStep(m, at, bs, k, user);
      FuseFrame(m, at, bs, k);
    }
  }

  lemma LeftStep(m: seq<Word>, at: nat, bs: seq<Block>, k: nat, user: bool)
    requires k < |bs| && Tiled(m, at, bs, user) && !bs[k].used && at + Span(bs) <= |m| < WORD_LIMIT
    ensures var m' := LeftWords(m, at + Span(bs[..k]), at);
            |m'| == |m| && Tiled(m', at, FreeLeft(bs, k), user) && OnlyMeta(m, m', at, bs)
  {
    hide Tiled, IsMeta, Span, Fuse, LeftWords;
    LeftTest(m, at, bs, k, user);
    if MergesLeft(bs, k) {
      FuseStep(m, at, bs, k - 1, user);
      FuseFrame(m, at, bs, k - 1);
    }
  }

  /** The words of a whole release of the block at `h`, in an arena covering `[start, end)`. */
  function FreeWords(m: seq<Word>, h: nat, start: nat, end: nat): seq<Word>
    requires h + 1 < |m| < WORD_LIMIT
  {
    var m1 := MarkWords(m, h, ClearPresent(FlagsOf(m[h + 1])));
    LeftWords(RightWords(m1, h, end), h, start)
  }

  lemma OnlyMetaChain(m: seq<Word>, m1: seq<Word>, m2: seq<Word>, m3: seq<Word>, at: nat, bs: seq<Block>, k: nat)
    requires k < |bs|
    requires OnlyMeta(m, m1, at, bs)
    requires OnlyMeta(m1, m2, at, Unmark(bs, k))
    requires OnlyMeta(m2, m3, at, FreeRight(Unmark(bs, k), k))
    ensures OnlyMeta(m, m3, at, bs)
  {
    var u := Unmark(bs, k);
    forall w | 0 <= w < |m| && !IsMeta(at, bs, w) ensures m3[w] == m[w] {
      MetaUnmark(at, bs, k, w);
      if MergesRight(u, k) { MetaFuse(at, u, k, w); }
    }
  }

  lemma FlagsInByte(w: Word)
    ensures FlagsOf(w) < 256
  {
  }

  lemma FreeRightShape(u: seq<Block>, k: nat)
    requires k < |u| && !u[k].used
    ensures k < |FreeRight(u, k)| && FreeRight(u, k)[..k] == u[..k] && !FreeRight(u, k)[k].used
  {
  }

  /** The words `kfree` writes are header and footer words, and they leave the released list behind. */
  lemma FreeStep(m: seq<Word>, at: nat, bs: seq<Block>, k: nat, user: bool)
    requires k < |bs| && bs[k].used && Tiled(m, at, bs, user) && at + Span(bs) <= |m| < WORD_LIMIT
    ensures var h := at + Span(bs[..k]);
            && h + 1 < |m|
            && var m' := FreeWords(m, h, at, at + Span(bs));
            && Tiled(m', at, Free(bs, k), user)
            && OnlyMeta(m, m', at, bs)
  {
    hide Tiled, IsMeta, FuseWords, Span, Fuse, FlagsOf, RightWords, LeftWords, OnlyMeta, MarkWords;
    var h := at + Span(bs[..k]);
    TiledAt(m, at, bs, user, k);
    FlagsInByte(m[h + 1]);
    FlagBits(FlagsOf(m[h + 1]));
    var flags := ClearPresent(FlagsOf(m[h + 1]));
    MarkStep(m, at, bs, k, flags, user);
    UnmarkFrame(m, at, bs, k, flags);
    UnmarkSpan(bs, k);
    var m1, u := MarkWords(m, h, flags), Unmark(bs, k);
    assert u[..k] == bs[..k];
    RightStep(m1, at, u, k, user);
    var m2, r := RightWords(m1, h, at + Span(bs)), FreeRight(u, k);
    if MergesRight(u, k) { FuseSpan(u, k); }
    FreeRightShape(u, k);
    LeftStep(m2, at, r, k, user);
    OnlyMetaChain(m, m1, m2, LeftWords(m2, h, at), at, bs, k);
  }

  /** The reads of a release are in bounds: the words of the right neighbour after the mark is cleared, and
      those of the left neighbour after the right merge. */
  predicate SafeToFree(m: seq<Word>, h: nat, start: nat, end: nat)
    requires h + 1 < |m| < WORD_LIMIT
  {
    var m1 := MarkWords(m, h, ClearPresent(FlagsOf(m[h + 1])));
    var m2 := RightWords(m1, h, end);
    && SafeRight(m1, h, end) && SafeLeft(m2, h, start)
  }

  predicate SafeRight(m: seq<Word>, h: nat, end: nat) {
    && h < |m| && h + m[h] + 2 < |m| < WORD_LIMIT
    && var right := h + m[h] + OVERHEAD;
    right < end ==> right + 1 < |m| && right + m[right] + 2 < |m|
  }

  predicate SafeLeft(m: seq<Word>, h: nat, start: nat) {
    && h < |m| && h + m[h] + 2 < |m| < WORD_LIMIT
    && (h > start ==> h > 0 && m[h - 1] < |m| && m[h - 1] + m[m[h - 1]] + OVERHEAD == h)
  }

  /** Once block `k` is marked free, both merges find the words they read where they expect them. */
  lemma MergesAreSafe(m: seq<Word>, at: nat, bs: seq<Block>, k: nat, user: bool)
    requires k < |bs| && !bs[k].used && Tiled(m, at, bs, user) && at + Span(bs) <= |m| < WORD_LIMIT
    ensures SafeRight(m, at + Span(bs[..k]), at + Span(bs))
    ensures SafeLeft(RightWords(m, at + Span(bs[..k]), at + Span(bs)), at + Span(bs[..k]), at)
  {
    hide *;
    RightMergeIsSafe(m, at, bs, k, user);
    var h, m' := AfterRight(m, at, bs, k, user);
    FreeRightSpan(bs, k);
    LeftMergeIsSafe(m', at, FreeRight(bs, k), k, user);
  }

  lemma AfterRight(m: seq<Word>, at: nat, bs: seq<Block>, k: nat, user: bool) returns (h: nat, m': seq<Word>)
    requires k < |bs| && !bs[k].used && Tiled(m, at, bs, user) && at + Span(bs) <= |m| < WORD_LIMIT
    ensures h == at + Span(bs[..k]) && m' == RightWords(m, h, at + Span(bs))
    ensures |m'| == |m| && Tiled(m', at, FreeRight(bs, k), user)
  {
    hide *;
    h := at + Span(bs[..k]);
    m' := RightWords(m, h, at + Span(bs));
    RightStep(m, at, bs, k, user);
  }

  lemma RightMergeIsSafe(m: seq<Word>, at: nat, bs: seq<Block>, k: nat, user: bool)
    requires k < |bs| && Tiled(m, at, bs, user) && at + Span(bs) <= |m| < WORD_LIMIT
    ensures SafeRight(m, at + Span(bs[..k]), at + Span(bs))
  {
    hide Tiled, Span;
    RightNeighbour(m, at, bs, k, user);
  }

  lemma LeftMergeIsSafe(m: seq<Word>, at: nat, bs: seq<Block>, k: nat, user: bool)
    requires k < |bs| && Tiled(m, at, bs, user) && at + Span(bs) <= |m| < WORD_LIMIT
    ensures SafeLeft(m, at + Span(bs[..k]), at)
  {
    hide Tiled, Span;
    LeftNeighbour(m, at, bs, k, user);
  }

  lemma MarkedFree(m: seq<Word>, at: nat, bs: seq<Block>, k: nat, user: bool)
    requires k < |bs| && bs[k].used && Tiled(m, at, bs, user) && at + Span(bs) <= |m| < WORD_LIMIT
    ensures var h := at + Span(bs[..k]);
            && h + 1 < |m|
            && Tiled(MarkWords(m, h, ClearPresent(FlagsOf(m[h + 1]))), at, Unmark(bs, k), user)
            && |MarkWords(m, h, ClearPresent(FlagsOf(m[h + 1])))| == |m|
            && Span(Unmark(bs, k)) == Span(bs) && Span(Unmark(bs, k)[..k]) == Span(bs[..k])
  {
    hide Tiled, Span, FlagsOf, WithFlags, SameLive, SameOutside, HasPresent, HasUser;
    var h := at + Span(bs[..k]);
    TiledAt(m, at, bs, user, k);
    FlagsInByte(m[h + 1]);
    FlagBits(FlagsOf(m[h + 1]));
    MarkStep(m, at, bs, k, ClearPresent(FlagsOf(m[h + 1])), user);
    UnmarkSpan(bs, k);
    assert Unmark(bs, k)[..k] == bs[..k];
  }

  lemma FreeIsSafe(m: seq<Word>, at: nat, bs: seq<Block>, k: nat, user: bool)
    requires k < |bs| && bs[k].used && Tiled(m, at, bs, user) && at + Span(bs) <= |m| < WORD_LIMIT
    ensures var h, end := at + Span(bs[..k]), at + Span(bs);
            h + 1 < |m| && SafeToFree(m, h, at, end) && !Present(FreeWords(m, h, at, end)[h + 1])
  {
    hide Tiled, Span, FreeWords, Present, MarkWords, RightWords, SafeRight, SafeLeft;
    var h := at + Span(bs[..k]);
    MarkedFree(m, at, bs, k, user);
    MergesAreSafe(MarkWords(m, h, ClearPresent(FlagsOf(m[h + 1]))), at, Unmark(bs, k), k, user);
    HeaderStaysFree(m, h, at, at + Span(bs));
  }

  /** Neither merge touches the flags of the released header. */
  lemma HeaderStaysFree(m: seq<Word>, h: nat, start: nat, end: nat)
    requires h + 1 < |m| < WORD_LIMIT && SafeToFree(m, h, start, end)
    ensures !Present(FreeWords(m, h, start, end)[h + 1])
  {
    FlagsInByte(m[h + 1]);
    FlagBits(FlagsOf(m[h + 1]));
    var flags := ClearPresent(FlagsOf(m[h + 1]));
    FlagsWritten(m[h + 1], flags);
    hide WithFlags, FlagsOf;
    var m1 := MarkWords(m, h, flags);
    var m2 := RightWords(m1, h, end);
    assert m2[h + 1] == m1[h + 1];
    assert LeftWords(m2, h, start)[h + 1] == m2[h + 1];
  }
}
