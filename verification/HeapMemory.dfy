/** How a block list is laid out in memory: header, payload and footer words, tiled without gaps. */
module HeapMemory {
  import opened Words
  import opened Arithmetic
  import opened HeapBlocks

  /** The flags are the low byte of a header's second word; the other three bytes are padding. */
  function FlagsOf(w: Word): nat { w % 256 }

  function WithFlags(w: Word, flags: nat): Word
    requires flags < 256
  {
    w - w % 256 + flags
  }

  predicate HasPresent(flags: nat) { flags % 2 == 1 }

  predicate HasUser(flags: nat) { (flags / MEM_USER) % 2 == 1 }

  /** `MEM_PRESENT | flags` */
  function SetPresent(flags: nat): nat { if HasPresent(flags) then flags else flags + 1 }

  /** `flags & ~MEM_PRESENT` */
  function ClearPresent(flags: nat): nat { flags - flags % 2 }

  predicate Present(w: Word) { HasPresent(FlagsOf(w)) }

  lemma FlagBits(flags: nat)
    ensures HasUser(SetPresent(flags)) == HasUser(flags) && HasPresent(SetPresent(flags))
    ensures HasUser(ClearPresent(flags)) == HasUser(flags) && !HasPresent(ClearPresent(flags))
    ensures SetPresent(flags) / 2 == flags / 2 && ClearPresent(flags) / 2 == flags / 2
    ensures flags < 256 ==> SetPresent(flags) < 256 && ClearPresent(flags) < 256
  {
  }

  /** Setting the flags of a header leaves the other three bytes alone. */
  lemma FlagsAlone(w: Word, flags: nat)
    requires flags < 256
    ensures FlagsOf(WithFlags(w, flags)) == flags && WithFlags(w, flags) / 256 == w / 256
  {
    DivMod(w / 256, 256, flags);
  }

  /** The words `m[at..]` hold exactly the blocks `bs`: each header carries its size and mark, each footer
      points back at its own header, and a live block carries the user bit of its arena. */
  predicate Tiled(m: seq<Word>, at: nat, bs: seq<Block>, user: bool)
    decreases bs
  {
    bs != [] ==>
      && at + bs[0].size + OVERHEAD <= |m|
      && m[at] == bs[0].size
      && Present(m[at + 1]) == bs[0].used
      && (bs[0].used ==> HasUser(FlagsOf(m[at + 1])) == user)
      && m[at + 2 + bs[0].size] == at
      && Tiled(m, at + bs[0].size + OVERHEAD, bs[1..], user)
  }

  /** Word `w` is a header or footer word of one of the blocks. */
  predicate IsMeta(at: nat, bs: seq<Block>, w: int)
    decreases bs
  {
    bs != [] &&
    (w == at || w == at + 1 || w == at + 2 + bs[0].size || IsMeta(at + bs[0].size + OVERHEAD, bs[1..], w))
  }

  lemma {:induction false} MetaInside(at: nat, bs: seq<Block>, w: int)
    requires IsMeta(at, bs, w)
    ensures at <= w < at + Span(bs)
    decreases bs
  {
    if w != at && w != at + 1 && w != at + 2 + bs[0].size {
      MetaInside(at + bs[0].size + OVERHEAD, bs[1..], w);
    }
  }

  /** No metadata word lies inside a live payload. */
  lemma {:induction false} LiveNotMeta(at: nat, bs: seq<Block>, p: nat, w: int)
    requires p in Live(at, bs) && p <= w < p + Live(at, bs)[p]
    ensures !IsMeta(at, bs, w)
    decreases bs
  {
    var next := at + bs[0].size + OVERHEAD;
    if bs[0].used && p == at + 2 {
      if IsMeta(next, bs[1..], w) { MetaInside(next, bs[1..], w); }
    } else {
      LiveInside(next, bs[1..], p);
      LiveNotMeta(next, bs[1..], p, w);
    }
  }

  lemma {:induction false} TiledBounds(m: seq<Word>, at: nat, bs: seq<Block>, user: bool)
    requires Tiled(m, at, bs, user)
    ensures bs != [] ==> at + Span(bs) <= |m|
    decreases bs
  {
    if |bs| > 1 { TiledBounds(m, at + bs[0].size + OVERHEAD, bs[1..], user); }
  }

  /** The layout depends on nothing but the metadata words. */
  lemma {:induction false} TiledFrame(m: seq<Word>, m': seq<Word>, at: nat, bs: seq<Block>, user: bool)
    requires Tiled(m, at, bs, user)
    requires |m| == |m'|
    requires forall w :: 0 <= w < |m| && IsMeta(at, bs, w) ==> m'[w] == m[w]
    ensures Tiled(m', at, bs, user)
    decreases bs
  {
    if bs != [] {
      assert IsMeta(at, bs, at) && IsMeta(at, bs, at + 1) && IsMeta(at, bs, at + 2 + bs[0].size);
      TiledFrame(m, m', at + bs[0].size + OVERHEAD, bs[1..], user);
    }
  }

  lemma TiledElsewhere(m: seq<Word>, m': seq<Word>, at: nat, bs: seq<Block>, user: bool)
    requires Tiled(m, at, bs, user)
    requires |m| == |m'|
    requires forall w :: at <= w < at + Span(bs) && w < |m| ==> m'[w] == m[w]
    ensures Tiled(m', at, bs, user)
  {
    forall w | 0 <= w < |m| && IsMeta(at, bs, w) ensures m'[w] == m[w] {
      MetaInside(at, bs, w);
    }
    TiledFrame(m, m', at, bs, user);
  }

  lemma {:induction false} TiledConcat(m: seq<Word>, at: nat, xs: seq<Block>, ys: seq<Block>, user: bool)
    ensures Tiled(m, at, xs + ys, user) <==> Tiled(m, at, xs, user) && Tiled(m, at + Span(xs), ys, user)
    decreases xs
  {
    if xs == [] {
      assert xs + ys == ys;
    } else {
      assert (xs + ys)[1..] == xs[1..] + ys;
      TiledConcat(m, at + xs[0].size + OVERHEAD, xs[1..], ys, user);
    }
  }

  lemma TiledReplaceHead(m: seq<Word>, m': seq<Word>, at: nat, mid: seq<Block>, mid': seq<Block>, suf: seq<Block>,
                         user: bool)
    requires Tiled(m, at + Span(mid), suf, user)
    requires |m| == |m'| && Span(mid) == Span(mid')
    requires forall w :: at + Span(mid) <= w < |m| ==> m'[w] == m[w]
    requires Tiled(m', at, mid', user)
    ensures Tiled(m', at, mid' + suf, user)
  {
    TiledElsewhere(m, m', at + Span(mid), suf, user);
    TiledConcat(m', at, mid', suf, user);
  }

  /** Rewriting the middle of an arena: the blocks around it stay where they are. */
  lemma TiledReplace(m: seq<Word>, m': seq<Word>, at: nat, pre: seq<Block>, mid: seq<Block>, mid': seq<Block>,
                     suf: seq<Block>, user: bool)
    requires Tiled(m, at, pre, user) && Tiled(m, at + Span(pre), mid + suf, user)
    requires |m| == |m'| && Span(mid) == Span(mid')
    requires forall w :: 0 <= w < at + Span(pre) && w < |m| ==> m'[w] == m[w]
    requires forall w :: at + Span(pre) + Span(mid) <= w < |m| ==> m'[w] == m[w]
    requires Tiled(m', at + Span(pre), mid', user)
    ensures Tiled(m', at, pre + (mid' + suf), user)
  {
    hide Tiled, Span;
    TiledConcat(m, at + Span(pre), mid, suf, user);
    TiledReplaceHead(m, m', at + Span(pre), mid, mid', suf, user);
    TiledElsewhere(m, m', at, pre, user);
    TiledConcat(m', at, pre, mid' + suf, user);
  }

  /** What the words of block `k` say. */
  lemma TiledAt(m: seq<Word>, at: nat, bs: seq<Block>, user: bool, k: nat)
    requires k < |bs| && Tiled(m, at, bs, user)
    ensures var h := at + Span(bs[..k]);
            && Tiled(m, at, bs[..k], user)
            && Tiled(m, h, bs[k..], user)
            && h + bs[k].size + OVERHEAD <= |m|
            && m[h] == bs[k].size
            && Present(m[h + 1]) == bs[k].used
            && (bs[k].used ==> HasUser(FlagsOf(m[h + 1])) == user)
            && m[h + 2 + bs[k].size] == h
  {
    assert bs == bs[..k] + bs[k..];
    TiledConcat(m, at, bs[..k], bs[k..], user);
  }

  /** Word `w` belongs to a live payload. */
  predicate IsLiveWord(at: nat, bs: seq<Block>, w: int)
    decreases bs
  {
    bs != [] &&
    ((bs[0].used && at + 2 <= w < at + 2 + bs[0].size) || IsLiveWord(at + bs[0].size + OVERHEAD, bs[1..], w))
  }

  lemma {:induction false} LiveWordInside(at: nat, bs: seq<Block>, w: int)
    requires IsLiveWord(at, bs, w)
    ensures at + 2 <= w < at + Span(bs) - 1
    decreases bs
  {
    if !(bs[0].used && at + 2 <= w < at + 2 + bs[0].size) {
      LiveWordInside(at + bs[0].size + OVERHEAD, bs[1..], w);
    }
  }

  lemma {:induction false} LiveWordConcat(at: nat, xs: seq<Block>, ys: seq<Block>, w: int)
    ensures IsLiveWord(at, xs + ys, w) <==> IsLiveWord(at, xs, w) || IsLiveWord(at + Span(xs), ys, w)
    decreases xs
  {
    if xs == [] {
      assert xs + ys == ys;
    } else {
      assert (xs + ys)[1..] == xs[1..] + ys;
      LiveWordConcat(at + xs[0].size + OVERHEAD, xs[1..], ys, w);
    }
  }

  /** The live words are the words of the payloads in the live map. */
  lemma {:induction false} LiveWordOf(at: nat, bs: seq<Block>, p: nat, w: int)
    requires p in Live(at, bs) && p <= w < p + Live(at, bs)[p]
    ensures IsLiveWord(at, bs, w)
    decreases bs
  {
    if !(bs[0].used && p == at + 2) {
      LiveWordOf(at + bs[0].size + OVERHEAD, bs[1..], p, w);
    }
  }

  /** Two memories that agree on every live word of an arena. */
  ghost predicate SameLive(m: seq<Word>, m': seq<Word>, at: nat, bs: seq<Block>) {
    |m| == |m'| && forall w :: 0 <= w < |m| && IsLiveWord(at, bs, w) ==> m'[w] == m[w]
  }

  /** Two memories that agree outside an interval. */
  ghost predicate SameOutside(m: seq<Word>, m': seq<Word>, lo: nat, hi: nat) {
    |m| == |m'| && forall w :: 0 <= w < |m| && !(lo <= w < hi) ==> m'[w] == m[w]
  }

  lemma SameLiveMiddle(m: seq<Word>, m': seq<Word>, at: nat, pre: seq<Block>, mid: seq<Block>, suf: seq<Block>)
    requires SameOutside(m, m', at + Span(pre), at + Span(pre) + Span(mid))
    requires SameLive(m, m', at + Span(pre), mid)
    ensures SameLive(m, m', at, pre + (mid + suf))
  {
    hide IsLiveWord, Span;
    forall w | 0 <= w < |m| && IsLiveWord(at, pre + (mid + suf), w) ensures m'[w] == m[w] {
      LiveWordConcat(at, pre, mid + suf, w);
      LiveWordConcat(at + Span(pre), mid, suf, w);
      if IsLiveWord(at, pre, w) { LiveWordInside(at, pre, w); }
      if IsLiveWord(at + Span(pre) + Span(mid), suf, w) { LiveWordInside(at + Span(pre) + Span(mid), suf, w); }
    }
  }

  /** A rewrite of the middle of an arena that is correct there is correct everywhere. */
  lemma Rewrite(m: seq<Word>, m': seq<Word>, at: nat, pre: seq<Block>, mid: seq<Block>, mid': seq<Block>,
                suf: seq<Block>, user: bool)
    requires Tiled(m, at, pre + (mid + suf), user)
    requires Span(mid') == Span(mid)
    requires SameOutside(m, m', at + Span(pre), at + Span(pre) + Span(mid))
    requires SameLive(m, m', at + Span(pre), mid)
    requires Tiled(m', at + Span(pre), mid', user)
    ensures Tiled(m', at, pre + (mid' + suf), user)
    ensures SameLive(m, m', at, pre + (mid + suf))
    ensures SameOutside(m, m', at, at + Span(pre + (mid + suf)))
  {
    hide Tiled, SameLive, Span;
    TiledConcat(m, at, pre, mid + suf, user);
    TiledReplace(m, m', at, pre, mid, mid', suf, user);
    SameLiveMiddle(m, m', at, pre, mid, suf);
    SpanConcat(mid, suf);
    SpanConcat(pre, mid + suf);
  }

  lemma OneBlock(m: seq<Word>, at: nat, b: Block, user: bool, w: int)
    ensures Span([b]) == b.size + OVERHEAD
    ensures IsLiveWord(at, [b], w) <==> b.used && at + 2 <= w < at + 2 + b.size
    ensures Tiled(m, at, [b], user) <==>
            && at + b.size + OVERHEAD <= |m|
            && m[at] == b.size
            && Present(m[at + 1]) == b.used
            && (b.used ==> HasUser(FlagsOf(m[at + 1])) == user)
            && m[at + 2 + b.size] == at
  {
    assert [b][1..] == [];
  }

  lemma TwoBlocks(m: seq<Word>, at: nat, x: Block, y: Block, user: bool, w: int)
    ensures Span([x, y]) == x.size + OVERHEAD + y.size + OVERHEAD
    ensures IsLiveWord(at, [x, y], w) <==>
            IsLiveWord(at, [x], w) || IsLiveWord(at + x.size + OVERHEAD, [y], w)
    ensures Tiled(m, at, [x, y], user) <==>
            Tiled(m, at, [x], user) && Tiled(m, at + x.size + OVERHEAD, [y], user)
  {
    assert [x, y] == [x] + [y];
    OneBlock(m, at, x, user, w);
    OneBlock(m, at + x.size + OVERHEAD, y, user, w);
    SpanConcat([x], [y]);
    LiveWordConcat(at, [x], [y], w);
    TiledConcat(m, at, [x], [y], user);
  }

  lemma {:induction false} MetaConcat(at: nat, xs: seq<Block>, ys: seq<Block>, w: int)
    ensures IsMeta(at, xs + ys, w) <==> IsMeta(at, xs, w) || IsMeta(at + Span(xs), ys, w)
    decreases xs
  {
    if xs == [] {
      assert xs + ys == ys;
    } else {
      assert (xs + ys)[1..] == xs[1..] + ys;
      MetaConcat(at + xs[0].size + OVERHEAD, xs[1..], ys, w);
    }
  }

  lemma MetaSplit(at: nat, bs: seq<Block>, k: nat, w: int)
    requires k < |bs|
    ensures var h := at + Span(bs[..k]);
            IsMeta(at, bs, w) <==>
              || IsMeta(at, bs[..k], w)
              || w == h || w == h + 1 || w == h + 2 + bs[k].size
              || IsMeta(h + bs[k].size + OVERHEAD, bs[k + 1..], w)
  {
    assert bs == bs[..k] + bs[k..];
    MetaConcat(at, bs[..k], bs[k..], w);
  }

  /** Two memories that differ in header and footer words only. */
  ghost predicate OnlyMeta(m: seq<Word>, m': seq<Word>, at: nat, bs: seq<Block>) {
    |m| == |m'| && forall w :: 0 <= w < |m| && !IsMeta(at, bs, w) ==> m'[w] == m[w]
  }

  lemma OnlyMetaKeepsLive(m: seq<Word>, m': seq<Word>, at: nat, bs: seq<Block>)
    requires OnlyMeta(m, m', at, bs)
    ensures SameLive(m, m', at, bs)
    ensures SameOutside(m, m', at, at + Span(bs))
  {
    forall w | 0 <= w < |m| && IsLiveWord(at, bs, w) ensures m'[w] == m[w] {
      LiveWordNotMeta(at, bs, w);
    }
    forall w | 0 <= w < |m| && !(at <= w < at + Span(bs)) ensures m'[w] == m[w] {
      if IsMeta(at, bs, w) { MetaInside(at, bs, w); }
    }
  }

  lemma {:induction false} LiveWordNotMeta(at: nat, bs: seq<Block>, w: int)
    requires IsLiveWord(at, bs, w)
    ensures !IsMeta(at, bs, w)
    decreases bs
  {
    var next := at + bs[0].size + OVERHEAD;
    if bs[0].used && at + 2 <= w < at + 2 + bs[0].size {
      if IsMeta(next, bs[1..], w) { MetaInside(next, bs[1..], w); }
    } else {
      LiveWordInside(next, bs[1..], w);
      LiveWordNotMeta(next, bs[1..], w);
    }
  }

  lemma MetaUnmark(at: nat, bs: seq<Block>, k: nat, w: int)
    requires k < |bs|
    ensures IsMeta(at, Unmark(bs, k), w) <==> IsMeta(at, bs, w)
  {
    MetaSplit(at, bs, k, w);
    MetaSplit(at, Unmark(bs, k), k, w);
    assert Unmark(bs, k)[..k] == bs[..k] && Unmark(bs, k)[k + 1..] == bs[k + 1..];
  }

  lemma MetaFuse(at: nat, bs: seq<Block>, k: nat, w: int)
    requires k + 1 < |bs|
    ensures IsMeta(at, Fuse(bs, k), w) ==> IsMeta(at, bs, w)
  {
    var f := Fuse(bs, k);
    var h := at + Span(bs[..k]);
    MetaSplit(at, f, k, w);
    assert f[..k] == bs[..k] && f[k + 1..] == bs[k + 2..];
    MetaSplit(at, bs, k, w);
    MetaSplit(h + bs[k].size + OVERHEAD, bs[k + 1..], 0, w);
    assert bs[k + 1..][1..] == bs[k + 2..] && bs[k + 1..][..0] == [];
  }
}
