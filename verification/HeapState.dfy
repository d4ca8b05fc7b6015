/** The two arenas together: what one call may change, and what it must keep. */
module HeapState {
  import opened Words
  import opened HeapBlocks
  import opened HeapMemory
  import opened HeapSteps

  const MAX_WORDS := 0x4000_0000  // 2^32 bytes

  /** Arena 0 belongs to the kernel, arena 1 to user programs and lies below it. `limit` is where an arena
      must stop growing. */
  datatype Layout = Layout(base: seq<nat>, ptr: seq<nat>, limit: seq<nat>, blocks: seq<seq<Block>>)
  {
    predicate Shape() {
      && |base| == 2 && |ptr| == 2 && |limit| == 2 && |blocks| == 2
      && 0 < base[1] && ptr[1] <= limit[1] <= base[0] && ptr[0] <= limit[0]
      && ptr[0] == base[0] + Span(blocks[0])
      && ptr[1] == base[1] + Span(blocks[1])
    }

    predicate InArena(w: int)
      requires Shape()
    {
      base[0] <= w < limit[0] || base[1] <= w < limit[1]
    }

    /** A header or footer word of either arena. */
    predicate HoldsMeta(w: int)
      requires Shape()
    {
      IsMeta(base[0], blocks[0], w) || IsMeta(base[1], blocks[1], w)
    }

    /** The payloads in use: address to size. */
    function AllLive(): map<nat, nat>
      requires Shape()
    {
      Live(base[0], blocks[0]) + Live(base[1], blocks[1])
    }

    /** The arenas after arena `i` has become `bs`. */
    function With(i: nat, bs: seq<Block>): Layout
      requires Shape() && i < 2
    {
      this.(ptr := ptr[i := base[i] + Span(bs)], blocks := blocks[i := bs])
    }
  }

  ghost predicate Consistent(m: seq<Word>, s: Layout) {
    && s.Shape() && s.limit[0] <= |m| <= MAX_WORDS
    && Tiled(m, s.base[0], s.blocks[0], false)
    && Tiled(m, s.base[1], s.blocks[1], true)
  }

  /** No word of a live payload has changed, nor any word outside the arenas. */
  ghost predicate Untouched(m: seq<Word>, m': seq<Word>, s: Layout)
    requires s.Shape()
  {
    && SameLive(m, m', s.base[0], s.blocks[0])
    && SameLive(m, m', s.base[1], s.blocks[1])
    && forall w | 0 <= w < |m| && !s.InArena(w) :: m'[w] == m[w]
  }

  /** A rewrite of arena `i` that is right for the arena is right for the heap. */
  lemma Commit(m: seq<Word>, m': seq<Word>, s: Layout, i: nat, bs: seq<Block>)
    requires Consistent(m, s) && i < 2
    requires Span(s.blocks[i]) <= Span(bs) && s.base[i] + Span(bs) <= s.limit[i]
    requires Tiled(m', s.base[i], bs, i == 1)
    requires SameLive(m, m', s.base[i], s.blocks[i])
    requires SameOutside(m, m', s.base[i], s.base[i] + Span(bs))
    ensures Consistent(m', s.With(i, bs))
    ensures Untouched(m, m', s)
  {
    var j := 1 - i;
    if i == 0 {
      OtherArena(m, m', s.base[1], s.blocks[1], true, s.base[0], s.base[0] + Span(bs));
    } else {
      OtherArena(m, m', s.base[0], s.blocks[0], false, s.base[1], s.base[1] + Span(bs));
    }
  }

  /** What `Untouched` means for the owner of a payload. */
  lemma OwnerKeepsWords(m: seq<Word>, m': seq<Word>, s: Layout, p: nat, w: nat)
    requires s.Shape() && Untouched(m, m', s)
    requires p in s.AllLive() && p <= w < p + s.AllLive()[p] && w < |m|
    ensures m'[w] == m[w]
  {
    if p in Live(s.base[1], s.blocks[1]) {
      LiveWordOf(s.base[1], s.blocks[1], p, w);
    } else {
      LiveWordOf(s.base[0], s.blocks[0], p, w);
    }
  }

  /** No word of these payloads has changed. */
  ghost predicate KeepsWords(m: seq<Word>, m': seq<Word>, live: map<nat, nat>) {
    |m'| == |m| && forall p, w :: p in live && p <= w < p + live[p] && w < |m| ==> m'[w] == m[w]
  }

  /** A heap call keeps the words of every payload live before it, so of any that outlive it. */
  lemma CallKeepsWords(m0: seq<Word>, m: seq<Word>, m': seq<Word>, s: Layout, before: map<nat, nat>,
                       live: map<nat, nat>)
    requires s.Shape() && Untouched(m, m', s) && KeepsWords(m0, m, before)
    requires Includes(before, live) && Includes(s.AllLive(), live)
    ensures KeepsWords(m0, m', live)
  {
    assert |m'| == |m|;
    hide Layout.Shape, Layout.AllLive, Untouched;
    forall p, w | p in live && p <= w < p + live[p] && w < |m| ensures m'[w] == m0[w] {
      assert p in before && m[w] == m0[w];
      OwnerKeepsWords(m, m', s, p, w);
    }
  }

  /** No word outside the arenas has changed. */
  ghost predicate KeepsOutside(m: seq<Word>, m': seq<Word>, s: Layout)
    requires s.Shape()
  {
    |m'| == |m| && forall w :: 0 <= w < |m| && !s.InArena(w) ==> m'[w] == m[w]
  }

  lemma CallKeepsOutside(m0: seq<Word>, m: seq<Word>, m': seq<Word>, s: Layout, s': Layout)
    requires s.Shape() && s'.Shape() && s'.base == s.base && s'.limit == s.limit
    requires Untouched(m, m', s) && KeepsOutside(m0, m, s)
    ensures KeepsOutside(m0, m', s')
  {
    assert |m'| == |m|;
  }

  lemma NothingChanged(m: seq<Word>, live: map<nat, nat>, s: Layout)
    requires s.Shape()
    ensures KeepsWords(m, m, live) && KeepsOutside(m, m, s)
  {
  }

  /** Payloads lie inside memory. */
  lemma LiveBelow(m: seq<Word>, s: Layout, p: nat)
    requires Consistent(m, s) && p in s.AllLive()
    ensures 2 <= p && p + s.AllLive()[p] < |m| <= MAX_WORDS
  {
    InOneArena(s, p);
  }

  /** The heap's layout survives any stores that spare its headers and footers. */
  lemma StoresKeepHeap(m: seq<Word>, m': seq<Word>, s: Layout)
    requires Consistent(m, s) && |m'| == |m|
    requires forall w :: 0 <= w < |m| && s.HoldsMeta(w) ==> m'[w] == m[w]
    ensures Consistent(m', s)
  {
    hide Tiled, IsMeta;
    TiledFrame(m, m', s.base[0], s.blocks[0], false);
    TiledFrame(m, m', s.base[1], s.blocks[1], true);
  }

  ghost predicate Includes(before: map<nat, nat>, live: map<nat, nat>) {
    forall p :: p in live ==> p in before && before[p] == live[p]
  }

  lemma InOneArena(s: Layout, p: nat)
    requires s.Shape() && p in s.AllLive()
    ensures var i := if p >= s.base[0] then 0 else 1;
            && p in Live(s.base[i], s.blocks[i])
            && p !in Live(s.base[1 - i], s.blocks[1 - i])
            && s.AllLive()[p] == Live(s.base[i], s.blocks[i])[p]
            && s.base[i] + 2 <= p && p + s.AllLive()[p] + 1 <= s.ptr[i]
  {
    if p in Live(s.base[0], s.blocks[0]) { LiveInside(s.base[0], s.blocks[0], p); }
    if p in Live(s.base[1], s.blocks[1]) { LiveInside(s.base[1], s.blocks[1], p); }
  }

  /** Payloads in use are pairwise disjoint, across both arenas, and never at address 0. */
  lemma LivePayloadsDisjoint(s: Layout, p: nat, q: nat)
    requires s.Shape()
    requires p in s.AllLive() && q in s.AllLive() && p < q
    ensures 0 < p && p + s.AllLive()[p] + OVERHEAD <= q && q + s.AllLive()[q] < s.limit[0]
  {
    InOneArena(s, p);
    InOneArena(s, q);
    if p >= s.base[0] {
      LiveDisjoint(s.base[0], s.blocks[0], p, q);
    } else if q < s.base[0] {
      LiveDisjoint(s.base[1], s.blocks[1], p, q);
    }
  }

  /** Payloads never contain a header or footer word of either arena. */
  lemma LivePayloadsHoldNoMetadata(s: Layout, p: nat, w: nat)
    requires s.Shape()
    requires p in s.AllLive() && p <= w < p + s.AllLive()[p]
    ensures !s.HoldsMeta(w)
  {
    InOneArena(s, p);
    if IsMeta(s.base[0], s.blocks[0], w) { MetaInside(s.base[0], s.blocks[0], w); }
    if IsMeta(s.base[1], s.blocks[1], w) { MetaInside(s.base[1], s.blocks[1], w); }
    if p >= s.base[0] {
      LiveNotMeta(s.base[0], s.blocks[0], p, w);
    } else {
      LiveNotMeta(s.base[1], s.blocks[1], p, w);
    }
  }

  /** An owner may store anything in its payload: the heap stays laid out as it was. */
  lemma OwnerStoresKeepHeap(m: seq<Word>, s: Layout, p: nat, w: nat, v: Word)
    requires Consistent(m, s) && p in s.AllLive() && p <= w < p + s.AllLive()[p]
    ensures w < |m| && Consistent(m[w := v], s)
  {
    hide Tiled, Live;
    InOneArena(s, p);
    LivePayloadsHoldNoMetadata(s, p, w);
    TiledFrame(m, m[w := v], s.base[0], s.blocks[0], false);
    TiledFrame(m, m[w := v], s.base[1], s.blocks[1], true);
  }

  /** And what it stores there changes no word of any other payload, nor any outside the arenas. */
  lemma OwnerStoreKeepsOthers(m: seq<Word>, s: Layout, p: nat, w: nat, v: Word)
    requires Consistent(m, s) && p in s.AllLive() && p <= w < p + s.AllLive()[p]
    ensures w < |m| && KeepsWords(m, m[w := v], s.AllLive() - {p}) && KeepsOutside(m, m[w := v], s)
  {
    hide Tiled, Live, Layout.AllLive;
    InOneArena(s, p);
    forall q, x | q in s.AllLive() - {p} && q <= x < q + s.AllLive()[q] && x < |m| ensures m[w := v][x] == m[x] {
      if p < q { LivePayloadsDisjoint(s, p, q); } else { LivePayloadsDisjoint(s, q, p); }
    }
  }

  // ---------------------------------------------------------------- the live map after a call

  function Allocated(s: Layout, i: nat, want: nat): Layout
    requires s.Shape() && i < 2
  {
    s.With(i, Malloc(s.blocks[i], want))
  }

  /** The address `kmalloc` returns. */
  function Grant(s: Layout, i: nat, want: nat): nat
    requires s.Shape() && i < 2
  {
    s.base[i] + Span(s.blocks[i][..FindFit(s.blocks[i], want)]) + 2
  }

  predicate HasRoom(s: Layout, i: nat, want: nat)
    requires s.Shape() && i < 2
  {
    FindFit(s.blocks[i], want) < |s.blocks[i]| || s.ptr[i] + want + OVERHEAD <= s.limit[i]
  }

  /** Allocation adds one payload that was not live, sized to the request with little to spare. */
  lemma AllocatedLive(s: Layout, i: nat, want: nat)
    requires s.Shape() && i < 2 && HasRoom(s, i, want)
    ensures var s', p := Allocated(s, i, want), Grant(s, i, want);
            && s'.Shape() && p !in s.AllLive() && p in s'.AllLive()
            && want <= s'.AllLive()[p] < want + MIN_SPLIT
            && s'.AllLive() == s.AllLive()[p := s'.AllLive()[p]]
            && (p >= s.base[0] <==> i == 0)
  {
    hide Live, Span, Carve, FindFit;
    var bs := s.blocks[i];
    MallocLive(s.base[i], bs, want);
    MallocSpan(bs, want);
    MallocSlack(bs, want);
    var s', p := Allocated(s, i, want), Grant(s, i, want);
    var k := FindFit(bs, want);
    assert Malloc(bs, want)[..k] == bs[..k];
    LiveInside(s.base[i], s'.blocks[i], p);
    if i == 0 {
      if p in Live(s.base[1], s.blocks[1]) { LiveInside(s.base[1], s.blocks[1], p); }
    } else {
      if p in Live(s.base[0], s.blocks[0]) { LiveInside(s.base[0], s.blocks[0], p); }
    }
  }

  function ArenaAt(s: Layout, p: nat): nat
    requires s.Shape()
  {
    if p >= s.base[0] then 0 else 1
  }

  function Released(s: Layout, p: nat): Layout
    requires s.Shape() && p in s.AllLive()
  {
    InOneArena(s, p);
    var i := ArenaAt(s, p);
    s.With(i, Free(s.blocks[i], BlockAt(s.base[i], s.blocks[i], p)))
  }

  /** Release removes that payload and no other, and gives back no address space. */
  lemma ReleasedLive(s: Layout, p: nat)
    requires s.Shape() && p in s.AllLive()
    ensures var s' := Released(s, p);
            s'.Shape() && s'.AllLive() == s.AllLive() - {p} && s'.ptr == s.ptr
  {
    hide Live, Span, Free, BlockAt;
    InOneArena(s, p);
    var i := ArenaAt(s, p);
    var k := BlockAt(s.base[i], s.blocks[i], p);
    FreeLive(s.base[i], s.blocks[i], k);
    FreeSpan(s.blocks[i], k);
  }

  // ---------------------------------------------------------------- the writes of a whole call

  /** The words of the free block that is chosen. */
  lemma ChosenBlock(m: seq<Word>, s: Layout, i: nat, want: nat)
    requires Consistent(m, s) && i < 2 && FindFit(s.blocks[i], want) < |s.blocks[i]|
    ensures var c, b := Grant(s, i, want) - 2, s.blocks[i][FindFit(s.blocks[i], want)];
            c + 2 + b.size < |m| && want <= b.size && m[c] == b.size && !Present(m[c + 1])
  {
    hide Tiled, FindFit, Span, HasUser;
    TiledAt(m, s.base[i], s.blocks[i], i == 1, FindFit(s.blocks[i], want));
  }

  /** Reuse moves no boundary of the arenas. */
  lemma TakenLayout(s: Layout, i: nat, want: nat)
    requires s.Shape() && i < 2 && FindFit(s.blocks[i], want) < |s.blocks[i]|
    ensures Span(Malloc(s.blocks[i], want)) == Span(s.blocks[i])
    ensures Allocated(s, i, want) == s.(blocks := s.blocks[i := Malloc(s.blocks[i], want)])
  {
    hide Malloc, FindFit, Span;
    MallocSpan(s.blocks[i], want);
  }

  /** Marking and splitting the block, for its arena. */
  lemma TakeInArena(m: seq<Word>, s: Layout, i: nat, want: nat, flags: nat, c: nat)
    requires Consistent(m, s) && i < 2 && FindFit(s.blocks[i], want) < |s.blocks[i]|
    requires flags < 256 && HasPresent(flags) && HasUser(flags) == (i == 1)
    requires c == Grant(s, i, want) - 2 && c + 2 < |m| && c + 2 + m[c] < |m|
    requires m[c] == s.blocks[i][FindFit(s.blocks[i], want)].size
    ensures var m', bs := TakeWords(m, c, m[c], want, flags), s.blocks[i];
            && Tiled(m', s.base[i], Malloc(bs, want), i == 1)
            && SameLive(m, m', s.base[i], bs)
            && SameOutside(m, m', s.base[i], s.base[i] + Span(bs))
            && FlagsOf(m'[c + 1]) == flags
  {
    hide Tiled, Carve, TakeWords, SameLive, SameOutside, FindFit, FlagsOf, Span, HasPresent, HasUser;
    TakeStep(m, s.base[i], s.blocks[i], FindFit(s.blocks[i], want), want, flags, i == 1);
  }

  lemma CommitTake(m: seq<Word>, s: Layout, i: nat, want: nat, flags: nat)
    requires Consistent(m, s) && i < 2 && FindFit(s.blocks[i], want) < |s.blocks[i]|
    requires flags < 256 && HasPresent(flags) && HasUser(flags) == (i == 1)
    ensures var c := Grant(s, i, want) - 2;
            && c + 2 < |m| && c + 2 + m[c] < |m| && want <= m[c]
            && !Present(m[c + 1])
            && var m' := TakeWords(m, c, m[c], want, flags);
            && Consistent(m', Allocated(s, i, want))
            && Untouched(m, m', s)
            && FlagsOf(m'[c + 1]) == flags
    ensures Allocated(s, i, want) == s.(blocks := s.blocks[i := Malloc(s.blocks[i], want)])
  {
    hide Tiled, TakeWords, SameLive, SameOutside, FindFit, FlagsOf, Span, Malloc, Present, HasPresent, HasUser,
         Untouched;
    var c := Grant(s, i, want) - 2;
    ChosenBlock(m, s, i, want);
    TakeInArena(m, s, i, want, flags, c);
    TakenLayout(s, i, want);
    Commit(m, TakeWords(m, c, m[c], want, flags), s, i, Malloc(s.blocks[i], want));
  }

  lemma CommitGrow(m: seq<Word>, s: Layout, i: nat, want: nat, flags: nat)
    requires Consistent(m, s) && i < 2 && FindFit(s.blocks[i], want) == |s.blocks[i]|
    requires s.ptr[i] + want + OVERHEAD <= s.limit[i]
    requires flags < 256 && HasPresent(flags) && HasUser(flags) == (i == 1)
    ensures Grant(s, i, want) == s.ptr[i] + 2
    ensures s.ptr[i] + want + OVERHEAD <= |m| < WORD_LIMIT
    ensures var m' := GrowWords(m, s.ptr[i], want, flags);
            && Consistent(m', Allocated(s, i, want))
            && Untouched(m, m', s)
            && FlagsOf(m'[s.ptr[i] + 1]) == flags
    ensures Allocated(s, i, want) ==
            s.(ptr := s.ptr[i := s.ptr[i] + want + OVERHEAD], blocks := s.blocks[i := Malloc(s.blocks[i], want)])
  {
    hide Tiled, IsLiveWord, Live, GrowWords, SameLive, FindFit, FlagsOf, Span;
    var bs := s.blocks[i];
    assert bs[..|bs|] == bs;
    MallocSpan(bs, want);
    GrowStep(m, s.base[i], bs, want, flags, i == 1);
    assert Malloc(bs, want) == bs + [Block(want, true)];
    Commit(m, GrowWords(m, s.ptr[i], want, flags), s, i, Malloc(bs, want));
  }

  /** The header of a live payload says where it is and which arena it came from. */
  lemma LiveHeader(m: seq<Word>, s: Layout, p: nat)
    requires Consistent(m, s) && p in s.AllLive()
    ensures var i := ArenaAt(s, p);
            && s.base[i] + 2 <= p < |m| && p + s.AllLive()[p] < s.ptr[i]
            && Present(m[p - 1]) && m[p - 2] == s.AllLive()[p]
            && HasUser(FlagsOf(m[p - 1])) == (i == 1)
  {
    hide Tiled, Span, Live;
    InOneArena(s, p);
    var i := ArenaAt(s, p);
    var k := BlockAt(s.base[i], s.blocks[i], p);
    TiledAt(m, s.base[i], s.blocks[i], i == 1, k);
  }

  lemma CommitFree(m: seq<Word>, s: Layout, p: nat)
    requires Consistent(m, s) && p in s.AllLive()
    ensures var i := ArenaAt(s, p);
            && 2 <= p && p - 1 < |m|
            && var m' := FreeWords(m, p - 2, s.base[i], s.ptr[i]);
            && Consistent(m', Released(s, p))
            && Untouched(m, m', s)
    ensures Released(s, p).ptr == s.ptr
  {
    hide Tiled, IsLiveWord, FreeWords, SameLive, SameOutside, Live, Free;
    InOneArena(s, p);
    ReleasedLive(s, p);
    var i := ArenaAt(s, p);
    var bs := s.blocks[i];
    var k := BlockAt(s.base[i], bs, p);
    FreeStep(m, s.base[i], bs, k, i == 1);
    var m' := FreeWords(m, p - 2, s.base[i], s.ptr[i]);
    OnlyMetaKeepsLive(m, m', s.base[i], bs);
    FreeSpan(bs, k);
    Commit(m, m', s, i, Free(bs, k));
  }

  /** Every word `kfree` reads on the way lies inside memory, the neighbours are where it looks for them, and
      the released header stays marked free. */
  lemma FreeReads(m: seq<Word>, s: Layout, p: nat)
    requires Consistent(m, s) && p in s.AllLive()
    ensures 2 <= p && p - 1 < |m|
    ensures var i, h := ArenaAt(s, p), p - 2;
            && SafeToFree(m, h, s.base[i], s.ptr[i])
            && !Present(FreeWords(m, h, s.base[i], s.ptr[i])[h + 1])
  {
    hide Tiled, Live, SafeToFree, FreeWords, Span;
    InOneArena(s, p);
    var i := ArenaAt(s, p);
    var k := BlockAt(s.base[i], s.blocks[i], p);
    FreeIsSafe(m, s.base[i], s.blocks[i], k, i == 1);
  }
}
