/** The kernel heap as lists of blocks: what `kmalloc` and `kfree` do to an arena, without the memory.

    Addresses and sizes count 32-bit words: the 8-byte header is two words, the 4-byte footer one,
    and every payload the allocator makes is a whole number of words. */
module HeapBlocks {

  const MAX_COALESCE := 16384  // 65536 bytes
  const MIN_SPLIT := 5         // header + 8 bytes + footer
  const OVERHEAD := 3          // header + footer

  datatype Block = Block(size: nat, used: bool)

  /** Words covered by a run of blocks, headers and footers included. */
  function Span(bs: seq<Block>): nat {
    if bs == [] then 0 else bs[0].size + OVERHEAD + Span(bs[1..])
  }

  lemma {:induction false} SpanConcat(xs: seq<Block>, ys: seq<Block>)
    ensures Span(xs + ys) == Span(xs) + Span(ys)
  {
    if xs == [] {
      assert xs + ys == ys;
    } else {
      SpanConcat(xs[1..], ys);
      assert (xs + ys)[1..] == xs[1..] + ys;
    }
  }

  lemma SpanTake(bs: seq<Block>, k: nat)
    requires k < |bs|
    ensures Span(bs[..k + 1]) == Span(bs[..k]) + bs[k].size + OVERHEAD
    ensures Span(bs) == Span(bs[..k]) + bs[k].size + OVERHEAD + Span(bs[k + 1..])
  {
    SpanOne(bs[k]);
    hide Span;
    assert bs[..k + 1] == bs[..k] + [bs[k]];
    SpanConcat(bs[..k], [bs[k]]);
    assert bs == bs[..k + 1] + bs[k + 1..];
    SpanConcat(bs[..k + 1], bs[k + 1..]);
  }

  lemma EmptySpan(bs: seq<Block>)
    requires bs == []
    ensures Span(bs) == 0
  {
  }

  lemma SpanRest(bs: seq<Block>, k: nat)
    requires k <= |bs|
    ensures Span(bs[..k]) <= Span(bs) && (Span(bs[..k]) < Span(bs) <==> k < |bs|)
  {
    if k < |bs| { SpanTake(bs, k); } else { assert bs[..k] == bs; }
  }

  lemma SpanOne(b: Block)
    ensures Span([b]) == b.size + OVERHEAD
  {
    assert [b][1..] == [];
  }

  /** The address of the payload of block `k`. */
  function PayloadOf(base: nat, bs: seq<Block>, k: nat): nat
    requires k < |bs|
  {
    base + Span(bs[..k]) + 2
  }

  // ---------------------------------------------------------------- allocation

  predicate Fits(b: Block, want: nat) {
    !b.used && b.size >= want
  }

  function FindFit(bs: seq<Block>, want: nat): (k: nat)
    ensures k <= |bs|
    ensures k < |bs| ==> Fits(bs[k], want)
    ensures forall j :: 0 <= j < k ==> !Fits(bs[j], want)
  {
    if bs == [] || Fits(bs[0], want) then 0 else 1 + FindFit(bs[1..], want)
  }

  lemma FindFitIsFirst(bs: seq<Block>, want: nat, k: nat)
    requires k <= |bs|
    requires forall j :: 0 <= j < k ==> !Fits(bs[j], want)
    requires k == |bs| || Fits(bs[k], want)
    ensures FindFit(bs, want) == k
  {
  }

  predicate Splits(b: Block, want: nat) {
    b.size >= want + MIN_SPLIT
  }

  /** What becomes of the free block that was chosen. */
  function Carve(b: Block, want: nat): seq<Block> {
    if Splits(b, want) then [Block(want, true), Block(b.size - want - OVERHEAD, false)]
    else [Block(b.size, true)]
  }

  /** In bytes: a remainder with room for a header, 8 bytes and a footer, 20 in all, is split off. */
  lemma CarveInBytes(b: Block, want: nat)
    requires Fits(b, want)
    ensures 4 * b.size - 4 * want >= 20 ==>
              |Carve(b, want)| == 2 && Carve(b, want)[0] == Block(want, true)
              && !Carve(b, want)[1].used && 8 + 4 * Carve(b, want)[1].size + 4 == 4 * b.size - 4 * want
    ensures 4 * b.size - 4 * want < 20 ==> Carve(b, want) == [Block(b.size, true)]
  {
  }

  function Malloc(bs: seq<Block>, want: nat): seq<Block> {
    var k := FindFit(bs, want);
    if k < |bs| then bs[..k] + Carve(bs[k], want) + bs[k + 1..]
    else bs + [Block(want, true)]
  }

  // ---------------------------------------------------------------- release

  predicate Absorbable(b: Block) {
    !b.used && b.size <= MAX_COALESCE
  }

  predicate MergesRight(bs: seq<Block>, k: nat) {
    k + 1 < |bs| && Absorbable(bs[k + 1])
  }

  predicate MergesLeft(bs: seq<Block>, k: nat) {
    0 < k <= |bs| && Absorbable(bs[k - 1])
  }

  /** In bytes: a free neighbour of up to 65536 is merged with. */
  lemma MergesInBytes(bs: seq<Block>, k: nat)
    requires k < |bs|
    ensures MergesRight(bs, k) <==> k + 1 < |bs| && !bs[k + 1].used && 4 * bs[k + 1].size <= 65536
    ensures MergesLeft(bs, k) <==> k > 0 && !bs[k - 1].used && 4 * bs[k - 1].size <= 65536
  {
  }

  /** Blocks `k` and `k + 1` become one free block. */
  function Fuse(bs: seq<Block>, k: nat): seq<Block>
    requires k + 1 < |bs|
  {
    bs[..k] + [Block(bs[k].size + OVERHEAD + bs[k + 1].size, false)] + bs[k + 2..]
  }

  function Unmark(bs: seq<Block>, k: nat): seq<Block>
    requires k < |bs|
  {
    bs[k := Block(bs[k].size, false)]
  }

  function FreeRight(bs: seq<Block>, k: nat): seq<Block>
    requires k < |bs|
  {
    if MergesRight(bs, k) then Fuse(bs, k) else bs
  }

  function FreeLeft(bs: seq<Block>, k: nat): seq<Block>
    requires k < |bs|
  {
    if MergesLeft(bs, k) then Fuse(bs, k - 1) else bs
  }

  /** Release block `k`: absorb the right neighbour, then let the left neighbour absorb the result. */
  function Free(bs: seq<Block>, k: nat): seq<Block>
    requires k < |bs|
  {
    FreeLeft(FreeRight(Unmark(bs, k), k), k)
  }

  // ---------------------------------------------------------------- conservation and first fit

  lemma MallocSpan(bs: seq<Block>, want: nat)
    ensures var k := FindFit(bs, want);
            Span(Malloc(bs, want)) == if k < |bs| then Span(bs) else Span(bs) + want + OVERHEAD
  {
    var k := FindFit(bs, want);
    if k < |bs| {
      SpanTake(bs, k);
      SpanConcat(bs[..k], Carve(bs[k], want));
      SpanConcat(bs[..k] + Carve(bs[k], want), bs[k + 1..]);
      CarveSpan(bs[k], want);
    } else {
      SpanConcat(bs, [Block(want, true)]);
    }
  }

  lemma CarveSpan(b: Block, want: nat)
    requires Fits(b, want)
    ensures Span(Carve(b, want)) == b.size + OVERHEAD
  {
    var c := Carve(b, want);
    if Splits(b, want) {
      assert c[1..] == [c[1]];
      assert Span(c[1..]) == c[1].size + OVERHEAD;
    }
  }

  lemma UnmarkSpan(bs: seq<Block>, k: nat)
    requires k < |bs|
    ensures |Unmark(bs, k)| == |bs| && Span(Unmark(bs, k)) == Span(bs)
  {
    SpanTake(bs, k);
    SpanTake(Unmark(bs, k), k);
    assert Unmark(bs, k)[..k] == bs[..k];
    assert Unmark(bs, k)[k + 1..] == bs[k + 1..];
  }

  lemma FuseSpan(bs: seq<Block>, k: nat)
    requires k + 1 < |bs|
    ensures Span(Fuse(bs, k)) == Span(bs)
  {
    SpanTake(bs, k);
    SpanTake(bs, k + 1);
    var gs := Fuse(bs, k);
    SpanTake(gs, k);
    assert gs[..k] == bs[..k];
    assert gs[k + 1..] == bs[k + 2..];
  }

  lemma FreeRightSpan(bs: seq<Block>, k: nat)
    requires k < |bs|
    ensures k < |FreeRight(bs, k)| && Span(FreeRight(bs, k)) == Span(bs)
    ensures Span(FreeRight(bs, k)[..k]) == Span(bs[..k])
  {
    assert FreeRight(bs, k)[..k] == bs[..k];
    if MergesRight(bs, k) { FuseSpan(bs, k); }
  }

  lemma FreeLeftSpan(bs: seq<Block>, k: nat)
    requires k < |bs|
    ensures Span(FreeLeft(bs, k)) == Span(bs)
  {
    if MergesLeft(bs, k) { FuseSpan(bs, k - 1); }
  }

  /** `kfree` conserves the words of the arena. */
  lemma FreeSpan(bs: seq<Block>, k: nat)
    requires k < |bs|
    ensures Span(Free(bs, k)) == Span(bs)
  {
    hide Span, Unmark, FreeRight, FreeLeft;
    UnmarkSpan(bs, k);
    FreeRightSpan(Unmark(bs, k), k);
    FreeLeftSpan(FreeRight(Unmark(bs, k), k), k);
  }

  lemma SpanMonotone(bs: seq<Block>, i: nat, j: nat)
    requires i <= j <= |bs|
    ensures Span(bs[..i]) <= Span(bs[..j])
  {
    assert bs[..j] == bs[..i] + bs[i..j];
    SpanConcat(bs[..i], bs[i..j]);
  }

  /** The block chosen is the lowest-addressed free one that is large enough; the arena grows only when there
      is none. */
  lemma FirstFitIsLowest(base: nat, bs: seq<Block>, want: nat, j: nat)
    requires j < |bs| && Fits(bs[j], want)
    ensures var k := FindFit(bs, want);
            && k < |bs| && PayloadOf(base, bs, k) <= PayloadOf(base, bs, j)
            && Span(Malloc(bs, want)) == Span(bs)
  {
    SpanMonotone(bs, FindFit(bs, want), j);
    MallocSpan(bs, want);
  }

  // ---------------------------------------------------------------- bounded coalescing

  /** Of blocks `i` and `i + 1`, if both are free, at least one is too large to be absorbed. */
  predicate Apart(bs: seq<Block>, i: int) {
    0 <= i < |bs| - 1 ==> !(Absorbable(bs[i]) && Absorbable(bs[i + 1]))
  }

  ghost predicate Coalesced(bs: seq<Block>) {
    forall i :: Apart(bs, i)
  }

  lemma RightMergeSeparates(u: seq<Block>, k: nat)
    requires k < |u| && !u[k].used
    requires forall i :: i != k - 1 && i != k ==> Apart(u, i)
    ensures forall i :: i != k - 1 ==> Apart(FreeRight(u, k), i)
  {
    var r := FreeRight(u, k);
    if MergesRight(u, k) {
      forall i | i != k - 1 ensures Apart(r, i) {
        assert i < k ==> Apart(u, i);
        assert i >= k ==> Apart(u, i + 1);
      }
    }
  }

  lemma LeftMergeSeparates(r: seq<Block>, k: nat)
    requires k < |r| && !r[k].used
    requires forall i :: i != k - 1 ==> Apart(r, i)
    ensures Coalesced(FreeLeft(r, k))
  {
    var f := FreeLeft(r, k);
    if MergesLeft(r, k) {
      forall i ensures Apart(f, i) {
        assert i < k - 1 ==> Apart(r, i);
        assert i >= k - 1 ==> Apart(r, i + 1);
      }
    } else {
      assert Apart(r, k - 1);
    }
  }

  /** `kfree` never leaves two absorbable blocks side by side if there were none before. */
  lemma FreeKeepsCoalesced(bs: seq<Block>, k: nat)
    requires k < |bs| && bs[k].used
    requires Coalesced(bs)
    ensures Coalesced(Free(bs, k))
  {
    var u := Unmark(bs, k);
    forall i | i != k - 1 && i != k ensures Apart(u, i) {
      assert Apart(bs, i);
    }
    RightMergeSeparates(u, k);
    LeftMergeSeparates(FreeRight(u, k), k);
  }

  /** The one way `kmalloc` can leave two absorbable blocks side by side: it splits a block so large that
      the right neighbour was allowed to stay small, and the remainder is itself small. */
  predicate SplitsBesideSmall(bs: seq<Block>, want: nat) {
    var k := FindFit(bs, want);
    && k + 1 < |bs|
    && Splits(bs[k], want)
    && bs[k].size - want - OVERHEAD <= MAX_COALESCE
    && Absorbable(bs[k + 1])
  }

  lemma MallocKeepsCoalesced(bs: seq<Block>, want: nat)
    requires Coalesced(bs)
    ensures Coalesced(Malloc(bs, want)) <==> !SplitsBesideSmall(bs, want)
  {
    var k := FindFit(bs, want);
    var m := Malloc(bs, want);
    var grown := if k < |bs| then |Carve(bs[k], want)| - 1 else 0;
    assert m[k].used;
    assert forall j :: 0 <= j < k ==> m[j] == bs[j];
    assert forall j :: k + grown < j < |m| ==> m[j] == bs[j - grown];
    if SplitsBesideSmall(bs, want) {
      assert !Apart(m, k + 1);
    } else {
      forall i ensures Apart(m, i) {
        assert Apart(bs, i) && Apart(bs, i - grown);
      }
    }
  }

  /** For example: 20000 free words below 10 free ones, and a request for 10000. */
  lemma BadSplit()
    ensures var bs := [Block(20000, false), Block(10, false)];
            Coalesced(bs) && Malloc(bs, 10000)[1..] == [Block(9997, false), Block(10, false)]
            && !Coalesced(Malloc(bs, 10000))
  {
    var bs := [Block(20000, false), Block(10, false)];
    forall i ensures Apart(bs, i) { }
    var m := Malloc(bs, 10000);
    assert m == [Block(10000, true), Block(9997, false), Block(10, false)];
    assert !Apart(m, 1);
  }

  /** A split of a block that could itself be absorbed is always harmless. */
  lemma SmallSplitKeepsCoalesced(bs: seq<Block>, want: nat)
    requires Coalesced(bs)
    requires FindFit(bs, want) < |bs| ==> bs[FindFit(bs, want)].size <= MAX_COALESCE
    ensures Coalesced(Malloc(bs, want))
  {
    MallocKeepsCoalesced(bs, want);
    assert Apart(bs, FindFit(bs, want));
  }

  // ---------------------------------------------------------------- split / free round trip

  lemma SplitThenUnmark(bs: seq<Block>, want: nat)
    requires FindFit(bs, want) < |bs| && Splits(bs[FindFit(bs, want)], want)
    ensures var k := FindFit(bs, want);
            var u := Unmark(Malloc(bs, want), k);
            && |u| == |bs| + 1
            && u[k + 1] == Block(bs[k].size - want - OVERHEAD, false)
            && Fuse(u, k) == bs
            && u[..k] == bs[..k]
  {
    hide FindFit, Fuse;
    var k := FindFit(bs, want);
    var x, y := Block(want, false), Block(bs[k].size - want - OVERHEAD, false);
    var u := Unmark(Malloc(bs, want), k);
    assert u == bs[..k] + [x, y] + bs[k + 1..];
    FuseParts(bs[..k], x, y, bs[k + 1..]);
    assert bs == bs[..k] + [bs[k]] + bs[k + 1..];
  }

  lemma FuseParts(pre: seq<Block>, x: Block, y: Block, suf: seq<Block>)
    ensures Fuse(pre + [x, y] + suf, |pre|) == pre + [Block(x.size + OVERHEAD + y.size, false)] + suf
  {
  }

  /** Freeing a block that was just split off restores the block list exactly when the remainder
      can be absorbed and the left neighbour cannot absorb. */
  lemma SplitFreeRoundTrip(bs: seq<Block>, want: nat)
    requires FindFit(bs, want) < |bs| && Splits(bs[FindFit(bs, want)], want)
    ensures var k := FindFit(bs, want);
            Free(Malloc(bs, want), k) == bs
            <==> bs[k].size - want - OVERHEAD <= MAX_COALESCE && !MergesLeft(bs, k)
  {
    SplitThenUnmark(bs, want);
    var k := FindFit(bs, want);
    var u := Unmark(Malloc(bs, want), k);
    if MergesLeft(bs, k) {
      assert u[k - 1] == bs[k - 1];
      if !MergesRight(u, k) {
        assert FreeLeft(u, k)[k - 1].size > bs[k - 1].size;
      }
    } else if k > 0 {
      assert u[k - 1] == bs[k - 1];
    }
  }

  /** For example: a small free block below a large one absorbs what was split off the large one. */
  lemma SplitNotUndone()
    ensures var bs := [Block(10, false), Block(20000, false)];
            && FindFit(bs, 10000) == 1
            && Free(Malloc(bs, 10000), 1) == [Block(20013, false)]
  {
    var bs := [Block(10, false), Block(20000, false)];
    FindFitIsFirst(bs, 10000, 1);
    var m := Malloc(bs, 10000);
    assert m == [Block(10, false), Block(10000, true), Block(9997, false)];
    var u := Unmark(m, 1);
    assert FreeRight(u, 1) == [Block(10, false), Block(20000, false)];
  }

  // ---------------------------------------------------------------- live payloads

  /** The live payloads of an arena: address to size. */
  function Live(at: nat, bs: seq<Block>): map<nat, nat>
    decreases bs
  {
    if bs == [] then map[]
    else
      var rest := Live(at + bs[0].size + OVERHEAD, bs[1..]);
      if bs[0].used then rest[at + 2 := bs[0].size] else rest
  }

  /** A live payload keeps two words of header below it and one of footer above it inside the arena. */
  lemma {:induction false} LiveInside(at: nat, bs: seq<Block>, p: nat)
    requires p in Live(at, bs)
    ensures at + 2 <= p && p + Live(at, bs)[p] + 1 <= at + Span(bs)
    decreases bs
  {
    if bs[0].used && p == at + 2 {
    } else {
      LiveInside(at + bs[0].size + OVERHEAD, bs[1..], p);
    }
  }

  /** Live payloads are pairwise disjoint, with at least a footer and a header between them. */
  lemma {:induction false} LiveDisjoint(at: nat, bs: seq<Block>, p: nat, q: nat)
    requires p in Live(at, bs) && q in Live(at, bs) && p < q
    ensures p + Live(at, bs)[p] + OVERHEAD <= q
    decreases bs
  {
    var next := at + bs[0].size + OVERHEAD;
    if q == at + 2 && bs[0].used {
      LiveInside(next, bs[1..], p);
    } else {
      LiveInside(next, bs[1..], q);
      if p in Live(next, bs[1..]) {
        LiveInside(next, bs[1..], p);
        LiveDisjoint(next, bs[1..], p, q);
      }
    }
  }

  lemma {:induction false} LiveConcat(at: nat, xs: seq<Block>, ys: seq<Block>)
    ensures Live(at, xs + ys) == Live(at, xs) + Live(at + Span(xs), ys)
    ensures Live(at, xs).Keys !! Live(at + Span(xs), ys).Keys
    decreases xs
  {
    forall p | p in Live(at, xs) && p in Live(at + Span(xs), ys) ensures false {
      LiveInside(at, xs, p);
      LiveInside(at + Span(xs), ys, p);
    }
    if xs == [] {
      assert xs + ys == ys;
    } else {
      var next := at + xs[0].size + OVERHEAD;
      assert (xs + ys)[1..] == xs[1..] + ys;
      LiveConcat(next, xs[1..], ys);
      var l := Live(at, xs + ys);
      var r := Live(at, xs) + Live(at + Span(xs), ys);
      assert Live(next + Span(xs[1..]), ys) == Live(at + Span(xs), ys);
      if xs[0].used {
        assert at + 2 in Live(at, xs);
        assert at + 2 !in Live(at + Span(xs), ys);
      }
      assert l == r;
    }
  }

  lemma LiveSplit(at: nat, bs: seq<Block>, k: nat)
    requires k < |bs|
    ensures var here := if bs[k].used then map[PayloadOf(at, bs, k) := bs[k].size] else map[];
            Live(at, bs) == Live(at, bs[..k]) + here + Live(at + Span(bs[..k + 1]), bs[k + 1..])
  {
    var here := if bs[k].used then map[PayloadOf(at, bs, k) := bs[k].size] else map[];
    assert bs == bs[..k] + bs[k..];
    LiveConcat(at, bs[..k], bs[k..]);
    assert bs[k..] == [bs[k]] + bs[k + 1..];
    LiveConcat(at + Span(bs[..k]), [bs[k]], bs[k + 1..]);
    SpanTake(bs, k);
    assert Live(at + Span(bs[..k]), [bs[k]]) == here;
  }

  /** Releasing the mark of block `k` removes exactly its payload from the live map. */
  lemma UnmarkLive(at: nat, bs: seq<Block>, k: nat)
    requires k < |bs| && bs[k].used
    ensures Live(at, Unmark(bs, k)) == Live(at, bs) - {PayloadOf(at, bs, k)}
  {
    var u := Unmark(bs, k);
    var p := PayloadOf(at, bs, k);
    LiveSplit(at, bs, k);
    LiveSplit(at, u, k);
    assert u[..k] == bs[..k] && u[k + 1..] == bs[k + 1..];
    SpanTake(bs, k);
    SpanTake(u, k);
    if p in Live(at, bs[..k]) { LiveInside(at, bs[..k], p); }
    if p in Live(at + Span(bs[..k + 1]), bs[k + 1..]) { LiveInside(at + Span(bs[..k + 1]), bs[k + 1..], p); }
  }

  lemma FuseLive(at: nat, bs: seq<Block>, k: nat)
    requires k + 1 < |bs| && !bs[k].used && !bs[k + 1].used
    ensures Live(at, Fuse(bs, k)) == Live(at, bs)
  {
    var f := Fuse(bs, k);
    LiveSplit(at, bs, k + 1);
    LiveSplit(at, bs[..k + 1], k);
    assert bs[..k + 1][..k] == bs[..k];
    LiveSplit(at, f, k);
    assert f[..k] == bs[..k] && f[k + 1..] == bs[k + 2..];
    SpanTake(bs, k);
    SpanTake(bs, k + 1);
    SpanTake(f, k);
    assert bs[..k + 1][k + 1..] == [];
  }

  /** `kfree` takes its own payload, and no other, out of the live map. */
  lemma FreeLive(at: nat, bs: seq<Block>, k: nat)
    requires k < |bs| && bs[k].used
    ensures Live(at, Free(bs, k)) == Live(at, bs) - {PayloadOf(at, bs, k)}
  {
    UnmarkLive(at, bs, k);
    var u := Unmark(bs, k);
    if MergesRight(u, k) { FuseLive(at, u, k); }
    var r := FreeRight(u, k);
    if MergesLeft(r, k) { FuseLive(at, r, k - 1); }
  }

  /** `kmalloc` adds one payload, not live before, and changes no other. */
  lemma MallocLive(at: nat, bs: seq<Block>, want: nat)
    ensures var k, m := FindFit(bs, want), Malloc(bs, want);
            && k < |m| && m[k].used && m[k].size >= want
            && PayloadOf(at, m, k) !in Live(at, bs)
            && Live(at, m) == Live(at, bs)[PayloadOf(at, m, k) := m[k].size]
  {
    var k := FindFit(bs, want);
    if k < |bs| { TakeLive(at, bs, k, want); } else { AppendLive(at, bs, want); }
  }

  lemma TakeLive(at: nat, bs: seq<Block>, k: nat, want: nat)
    requires k < |bs| && Fits(bs[k], want)
    ensures var m := bs[..k] + Carve(bs[k], want) + bs[k + 1..];
            && PayloadOf(at, m, k) !in Live(at, bs)
            && Live(at, m) == Live(at, bs)[PayloadOf(at, m, k) := m[k].size]
  {
    hide Span;
    var m := bs[..k] + Carve(bs[k], want) + bs[k + 1..];
    var p, after := PayloadOf(at, m, k), at + Span(bs[..k + 1]);
    assert m[..k] == bs[..k];
    LiveSplit(at, bs, k);
    LiveSplit(at, m, k);
    SpanTake(bs, k);
    SpanTake(m, k);
    if p in Live(at, bs[..k]) { LiveInside(at, bs[..k], p); }
    if p in Live(after, bs[k + 1..]) { LiveInside(after, bs[k + 1..], p); }
    if Splits(bs[k], want) {
      assert m[k + 1..] == [Carve(bs[k], want)[1]] + bs[k + 1..];
    } else {
      assert m[k + 1..] == bs[k + 1..];
    }
  }

  lemma AppendLive(at: nat, bs: seq<Block>, want: nat)
    ensures var k, m := |bs|, bs + [Block(want, true)];
            && PayloadOf(at, m, k) !in Live(at, bs)
            && Live(at, m) == Live(at, bs)[PayloadOf(at, m, k) := want]
  {
    var k, m := |bs|, bs + [Block(want, true)];
    LiveSplit(at, m, k);
    assert m[k + 1..] == [] && m[..k] == bs;
    var p := PayloadOf(at, m, k);
    if p in Live(at, bs) { LiveInside(at, bs, p); }
  }

  /** A block the allocator hands out wastes less than a split would have needed. */
  lemma MallocSlack(bs: seq<Block>, want: nat)
    ensures var k, m := FindFit(bs, want), Malloc(bs, want);
            k < |m| && want <= m[k].size < want + MIN_SPLIT
  {
  }

  /** The block whose payload is at `p`. */
  function BlockAt(at: nat, bs: seq<Block>, p: nat): (k: nat)
    requires p in Live(at, bs)
    ensures k < |bs| && bs[k].used && PayloadOf(at, bs, k) == p && bs[k].size == Live(at, bs)[p]
    decreases bs
  {
    if bs[0].used && p == at + 2 then 0
    else
      var k := 1 + BlockAt(at + bs[0].size + OVERHEAD, bs[1..], p);
      assert bs[..k] == [bs[0]] + bs[1..][..k - 1];
      LiveInside(at + bs[0].size + OVERHEAD, bs[1..], p);
      k
  }

  // ---------------------------------------------------------------- runs

  /** One call: a request for `want` words, or the release of block `k`. */
  datatype Call = KMalloc(want: nat) | KFree(k: nat)

  predicate Allowed(bs: seq<Block>, c: Call) {
    c.KFree? ==> c.k < |bs| && bs[c.k].used
  }

  function Do(bs: seq<Block>, c: Call): seq<Block>
    requires Allowed(bs, c)
  {
    match c
    case KMalloc(want) => Malloc(bs, want)
    case KFree(k) => Free(bs, k)
  }

  predicate AllAllowed(bs: seq<Block>, calls: seq<Call>)
    decreases calls
  {
    calls != [] ==> Allowed(bs, calls[0]) && AllAllowed(Do(bs, calls[0]), calls[1..])
  }

  function DoAll(bs: seq<Block>, calls: seq<Call>): seq<Block>
    requires AllAllowed(bs, calls)
    decreases calls
  {
    if calls == [] then bs else DoAll(Do(bs, calls[0]), calls[1..])
  }

  /** No request of the run splits a large block just below a small free one. */
  predicate NoBadSplit(bs: seq<Block>, calls: seq<Call>)
    requires AllAllowed(bs, calls)
    decreases calls
  {
    calls != [] ==>
      && (calls[0].KMalloc? ==> !SplitsBesideSmall(bs, calls[0].want))
      && NoBadSplit(Do(bs, calls[0]), calls[1..])
  }

  /** Over any run the arena only grows, and coalescing stays complete as long as no bad split happens. */
  lemma {:induction false} RunInvariant(bs: seq<Block>, calls: seq<Call>)
    requires AllAllowed(bs, calls)
    ensures Span(DoAll(bs, calls)) >= Span(bs)
    ensures Coalesced(bs) && NoBadSplit(bs, calls) ==> Coalesced(DoAll(bs, calls))
    decreases calls
  {
    if calls != [] {
      match calls[0] {
        case KMalloc(want) =>
          MallocSpan(bs, want);
          if Coalesced(bs) { MallocKeepsCoalesced(bs, want); }
        case KFree(k) =>
          FreeSpan(bs, k);
          if Coalesced(bs) { FreeKeepsCoalesced(bs, k); }
      }
      RunInvariant(Do(bs, calls[0]), calls[1..]);
    }
  }
}
