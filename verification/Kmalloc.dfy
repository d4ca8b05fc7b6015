/** The kernel allocator over one flat memory of 32-bit words, with a kernel and a user arena. */
module Kmalloc {
  import opened Words
  import opened HeapBlocks
  import opened HeapMemory
  import opened HeapSteps
  import opened HeapState

  /** `(size + 7) & ~7` in 32-bit arithmetic, counted in words. */
  function RoundedWords(size: Word): nat {
    ((size + 7) % WORD_LIMIT) / 8 * 2
  }

  /** `r` is the least multiple of 8 that covers `size` bytes. */
  predicate IsLeastMultiple(r: nat, size: nat) {
    r % 8 == 0 && size <= r && forall m: nat :: m % 8 == 0 && size <= m ==> r <= m
  }

  /** The rounding covers the request exactly when it does not wrap, and then is the least multiple of 8 that does. */
  lemma RoundingCovers(size: Word)
    ensures 4 * RoundedWords(size) >= size <==> size <= 0xFFFF_FFF8
    ensures 4 * RoundedWords(size) >= size <==> IsLeastMultiple(4 * RoundedWords(size), size)
    ensures size > 0xFFFF_FFF8 ==> RoundedWords(size) == 0
    ensures 0 < size <= 0xFFFF_FFF8 ==> RoundedWords(size) >= 2
  {
    var r := 4 * RoundedWords(size);
    if size <= 0xFFFF_FFF8 {
      assert (size + 7) % WORD_LIMIT == size + 7 && r < size + 8;
      forall m: nat | m % 8 == 0 && size <= m ensures r <= m {
        assert m == 8 * (m / 8) && r == 8 * (r / 8);
      }
    }
  }

  /** A request for all but one of the bytes of the address space gets a payload of no words. */
  lemma RoundingWraps()
    ensures RoundedWords(0xFFFF_FFFF) == 0
  {
  }

  /** A request for `r` bytes has been served in arena `i`: from the lowest free block of at least so many bytes,
      exactly if there is one; otherwise at the end of the arena, with exactly so many. The other arena is as it
      was. */
  ghost predicate ServedIn(s: Layout, s': Layout, i: nat, r: nat, addr: nat) {
    && i < 2 && s.Shape() && s'.Shape()
    && s'.ptr[1 - i] == s.ptr[1 - i] && s'.blocks[1 - i] == s.blocks[1 - i]
    && (s'.ptr[i] == s.ptr[i] <==> exists k :: IsFreeFor(s.blocks[i], k, r))
    && (s'.ptr[i] == s.ptr[i] ==>
          exists k :: IsFreeFor(s.blocks[i], k, r) && (forall j :: 0 <= j < k ==> !IsFreeFor(s.blocks[i], j, r))
                      && addr == s.base[i] + Span(s.blocks[i][..k]) + 2)
    && (s'.ptr[i] != s.ptr[i] ==>
          && 4 * s'.ptr[i] == 4 * s.ptr[i] + 8 + r + 4 && addr == s.ptr[i] + 2
          && s'.blocks[i] == s.blocks[i] + [Block(r / 4, true)])
  }

  /** Block `k` is free and has at least `r` bytes. */
  ghost predicate IsFreeFor(bs: seq<Block>, k: int, r: nat) {
    0 <= k < |bs| && !bs[k].used && 4 * bs[k].size >= r
  }

  lemma LeastIsOne(r: nat, q: nat, size: nat)
    requires IsLeastMultiple(r, size) && IsLeastMultiple(q, size)
    ensures r == q
  {
  }

  lemma Serving(s: Layout, i: nat, size: Word, r: nat)
    requires s.Shape() && i < 2 && 0 < size <= 0xFFFF_FFF8 && IsLeastMultiple(r, size)
    requires HeapState.HasRoom(s, i, RoundedWords(size))
    ensures ServedIn(s, Allocated(s, i, RoundedWords(size)), i, r, Grant(s, i, RoundedWords(size)))
  {
    hide IsLeastMultiple, RoundedWords, Span, FindFit, Live, Layout.AllLive, Malloc, IsFreeFor, HeapState.HasRoom;
    RoundingCovers(size);
    LeastIsOne(r, 4 * RoundedWords(size), size);
    var bs, want := s.blocks[i], RoundedWords(size);
    AllocatedLive(s, i, want);
    MallocSpan(bs, want);
    FirstFree(bs, want, r);
    if FindFit(bs, want) == |bs| { assert bs[..|bs|] == bs; }
  }

  /** The first fit in words is the lowest free block of at least so many bytes. */
  lemma FirstFree(bs: seq<Block>, want: nat, r: nat)
    requires r == 4 * want
    ensures var k := FindFit(bs, want);
            && (k < |bs| <==> exists j :: IsFreeFor(bs, j, r))
            && (k < |bs| ==> IsFreeFor(bs, k, r)) && (forall j :: 0 <= j < k ==> !IsFreeFor(bs, j, r))
            && (k == |bs| ==> Malloc(bs, want) == bs + [Block(want, true)])
  {
    var k := FindFit(bs, want);
    forall j: int ensures IsFreeFor(bs, j, r) <==> 0 <= j < |bs| && HeapBlocks.Fits(bs[j], want) {
    }
    if k < |bs| { assert IsFreeFor(bs, k, r); }
  }

  lemma ServesInBytes(s: Layout, i: nat, size: Word)
    requires s.Shape() && i < 2 && 0 < size <= 0xFFFF_FFF8 && HeapState.HasRoom(s, i, RoundedWords(size))
    ensures size <= 4 * RoundedWords(size) <= size + 7
    ensures forall r: nat :: IsLeastMultiple(r, size) ==>
              ServedIn(s, Allocated(s, i, RoundedWords(size)), i, r, Grant(s, i, RoundedWords(size)))
  {
    hide ServedIn, Allocated, Grant, HeapState.HasRoom;
    RoundingCovers(size);
    assert IsLeastMultiple(4 * RoundedWords(size), size);
    assert (size + 7) / 8 * 8 % 8 == 0;
    forall r: nat | IsLeastMultiple(r, size)
      ensures ServedIn(s, Allocated(s, i, RoundedWords(size)), i, r, Grant(s, i, RoundedWords(size)))
    {
      Serving(s, i, size, r);
    }
  }

  /** `kmalloc` picks the arena from the user bit of its flags. */
  function ArenaFor(flags: nat): nat {
    if HasUser(flags) then 1 else 0
  }

  class Heap {
    const mem: array<Word>
    var base: seq<nat>          // heap_base[2]
    var ptr: seq<nat>           // heap_ptr[2]
    ghost var limit: seq<nat>
    ghost var blocks: seq<seq<Block>>

    ghost function State(): Layout
      reads this
    {
      Layout(base, ptr, limit, blocks)
    }

    ghost predicate Valid()
      reads this, mem
    {
      Consistent(mem[..], State())
    }

    /** The payloads in use: address to size, both in words. */
    ghost function AllLive(): map<nat, nat>
      reads this, mem
      requires Valid()
    {
      State().AllLive()
    }

    ghost function Words(): seq<Word>
      reads mem
    {
      mem[..]
    }

    /** These payloads, and every word outside the arenas, hold what they held when memory was `m0`. */
    ghost predicate Kept(m0: seq<Word>, kept: map<nat, nat>)
      reads this, mem
      requires Valid()
    {
      KeepsWords(m0, Words(), kept) && KeepsOutside(m0, Words(), State())
    }

    lemma Shaped()
      requires Valid()
      ensures State().Shape() && AllLive() == State().AllLive()
    {
    }

    lemma KeptNow(kept: map<nat, nat>)
      requires Valid()
      ensures Kept(Words(), kept)
    {
      NothingChanged(Words(), kept, State());
    }

    lemma KeptLess(m0: seq<Word>, kept: map<nat, nat>, fewer: map<nat, nat>)
      requires Valid() && Kept(m0, kept) && Includes(kept, fewer)
      ensures Kept(m0, fewer)
    {
    }

    /** What was kept up to the last call, and outlives it, is still kept. */
    lemma StillKept(m0: seq<Word>, m: seq<Word>, s: Layout, before: map<nat, nat>, kept: map<nat, nat>)
      requires Valid() && s.Shape() && State().base == s.base && State().limit == s.limit
      requires Untouched(m, Words(), s) && KeepsWords(m0, m, before) && KeepsOutside(m0, m, s)
      requires Includes(before, kept) && Includes(s.AllLive(), kept)
      ensures Kept(m0, kept)
    {
      hide Untouched, Layout.AllLive, KeepsWords, KeepsOutside, Tiled;
      CallKeepsWords(m0, m, Words(), s, before, kept);
      CallKeepsOutside(m0, m, Words(), s, State());
    }

    constructor (memory: array<Word>, heapStart: Word)
      requires memory.Length == MAX_WORDS
      requires 0xC000_0000 <= heapStart <= 0xFFFF_F000
      ensures Valid() && mem == memory
      ensures AllLive() == map[]
      ensures base[1] == 0x0400_0000 && limit[1] == 0x3000_0000 && limit[0] == 0x4000_0000
      ensures 4 * base[0] % 0x1000 == 0 && heapStart <= 4 * base[0] < heapStart + 0x1000
    {
      mem := memory;
      base := [(heapStart + 0xFFF) / 0x1000 * 0x400, 0x1000_0000 / 4];
      ptr := [(heapStart + 0xFFF) / 0x1000 * 0x400, 0x1000_0000 / 4];
      limit := [0x4000_0000, 0x3000_0000];
      blocks := [[], []];
    }

    /** Walk the blocks of arena `i` to the first free one that is large enough, or to the end. */
    method Scan(i: nat, want: nat) returns (c: nat, ghost k: nat)
      requires Valid() && i < 2
      ensures k == FindFit(blocks[i], want)
      ensures c == base[i] + Span(blocks[i][..FindFit(blocks[i], want)])
      ensures c < ptr[i] <==> FindFit(blocks[i], want) < |blocks[i]|
    {
      hide Tiled, Span, HasUser, FindFit;
      ghost var bs, m := blocks[i], mem[..];
      c := base[i];
      k := 0;
      assert Span(bs[..0]) == 0 by { EmptySpan(bs[..0]); }
      while c < ptr[i]
        invariant k <= |bs| && c == base[i] + Span(bs[..k])
        invariant forall j :: 0 <= j < k ==> !Fits(bs[j], want)
        decreases ptr[i] - c
      {
        SpanRest(bs, k);
        TiledAt(m, base[i], bs, i == 1, k);
        SpanTake(bs, k);
        var start := c + 2;
        var next := start + mem[c] + 1;
        if !Present(mem[c + 1]) && mem[c] >= want {
          break;
        }
        c := next;
        k := k + 1;
      }
      SpanRest(bs, k);
      FindFitIsFirst(bs, want, k);
    }

    /** Mark the free block at `c` present and split it if it is large enough. */
    method Take(c: nat, want: nat, flags: nat)
      requires mem.Length <= MAX_WORDS && flags < 256
      requires c + 2 < mem.Length && c + 2 + mem[c] < mem.Length && want <= mem[c]
      modifies mem
      ensures mem[..] == TakeWords(old(mem[..]), c, old(mem[c]), want, flags)
    {
      mem[c + 1] := WithFlags(mem[c + 1], flags);
      var start, cell := c + 2, mem[c];
      if cell - want >= MIN_SPLIT {
        var foot := start + want;
        mem[foot] := c;
        var rest := foot + 1;
        mem[rest] := cell - want - OVERHEAD;
        mem[rest + 1] := WithFlags(mem[rest + 1], ClearPresent(FlagsOf(mem[rest + 1])));
        mem[start + cell] := rest;
        mem[c] := want;
      }
    }

    /** Append a block to arena `i`. */
    method Append(i: nat, want: nat, flags: nat) returns (addr: nat)
      requires |ptr| == 2 && i < 2 && flags < 256
      requires ptr[i] + want + OVERHEAD <= mem.Length <= MAX_WORDS
      modifies mem, this`ptr
      ensures mem[..] == GrowWords(old(mem[..]), old(ptr)[i], want, flags)
      ensures ptr == old(ptr)[i := old(ptr)[i] + want + OVERHEAD]
      ensures addr == old(ptr)[i] + 2
    {
      var h := ptr[i];
      mem[h + 1] := WithFlags(mem[h + 1], flags);
      mem[h] := want;
      ptr := ptr[i := ptr[i] + 2];
      addr := ptr[i];
      ptr := ptr[i := ptr[i] + want];
      mem[ptr[i]] := h;
      ptr := ptr[i := ptr[i] + 1];
    }

    method Kmalloc(size: Word, flags: nat) returns (addr: nat)
      requires Valid() && flags < 256
      requires size == 0 || HasRoom(State(), ArenaFor(flags), RoundedWords(size))
      modifies this, mem
      ensures Valid()
      ensures size == 0 ==> addr == 0 && State() == old(State()) && mem[..] == old(mem[..])
      ensures size != 0 ==>
        var i, want := ArenaFor(flags), RoundedWords(size);
        && State() == Allocated(old(State()), i, want)
        && addr == Grant(old(State()), i, want)
        && 0 < addr <= mem.Length && FlagsOf(mem[addr - 1]) == SetPresent(flags)
        && addr !in old(AllLive())
        && addr in AllLive() && want <= AllLive()[addr] < want + MIN_SPLIT
        && AllLive() == old(AllLive())[addr := AllLive()[addr]]
        && (addr >= base[0] <==> flags / 4 % 2 == 0)
      ensures 0 < size <= 0xFFFF_FFF8 ==> size <= 4 * AllLive()[addr] <= size + 23
      ensures 0 < size <= 0xFFFF_FFF8 ==>
        forall r: nat :: IsLeastMultiple(r, size) ==>
          ServedIn(old(State()), State(), if flags / 4 % 2 == 1 then 1 else 0, r, addr)
      ensures Untouched(old(Words()), Words(), old(State())) && base == old(base) && limit == old(limit)
    {
      hide Tiled, Live, Span, Malloc, ServedIn, IsLeastMultiple, RoundedWords, HeapState.HasRoom, Layout.Shape,
           Consistent, Allocated, Grant, Layout.AllLive, Untouched, SetPresent, FlagsOf;
      if size == 0 {
        Unchanged();
        return 0;
      }
      var i := if HasUser(flags) then 1 else 0;
      var want := RoundedWords(size);
      FlagBits(flags);
      Shaped();
      AllocatedLive(State(), i, want);
      if size <= 0xFFFF_FFF8 { ServesInBytes(State(), i, size); }
      addr := Place(i, want, SetPresent(flags));
    }

    /** Mark the first free block that fits, or append one. */
    method Place(i: nat, want: nat, flags: nat) returns (addr: nat)
      requires Valid() && i < 2 && HeapState.HasRoom(State(), i, want)
      requires flags < 256 && HasPresent(flags) && HasUser(flags) == (i == 1)
      modifies this, mem
      ensures Valid() && State() == Allocated(old(State()), i, want) && addr == Grant(old(State()), i, want)
      ensures 0 < addr <= mem.Length && FlagsOf(mem[addr - 1]) == flags
      ensures Untouched(old(Words()), Words(), old(State())) && base == old(base) && limit == old(limit)
    {
      hide Tiled, IsLiveWord, Live, Span, FindFit, Malloc, GrowWords, TakeWords;
      ghost var s, m := State(), mem[..];
      var c, k := Scan(i, want);
      if c < ptr[i] {
        CommitTake(m, s, i, want, flags);
        Take(c, want, flags);
        addr := c + 2;
      } else {
        CommitGrow(m, s, i, want, flags);
        addr := Append(i, want, flags);
      }
      blocks := blocks[i := Malloc(blocks[i], want)];
      assert State() == Allocated(s, i, want);
      assert mem[..][addr - 1] == mem[addr - 1];
    }

    lemma Unchanged()
      requires Valid()
      ensures Untouched(Words(), Words(), State())
    {
    }

    /** Merge the block at `hdr`, whose footer is at `ftr`, with the free block to its right, if it is small. */
    method AbsorbRight(hdr: nat, ftr: nat, end: nat) returns (newFtr: nat)
      requires SafeRight(mem[..], hdr, end) && ftr == hdr + 2 + mem[hdr]
      modifies mem
      ensures mem[..] == RightWords(old(mem[..]), hdr, end)
      ensures newFtr == hdr + 2 + mem[hdr]
    {
      newFtr := ftr;
      var right := ftr + 1;
      if right < end && !Present(mem[right + 1]) && mem[right] <= MAX_COALESCE {
        var ftrRight := right + 2 + mem[right];
        mem[hdr] := mem[hdr] + OVERHEAD + mem[right];
        newFtr := ftrRight;
        mem[newFtr] := hdr;
      }
    }

    /** Let the free block to the left of `hdr`, if it is small, absorb the block at `hdr`. */
    method AbsorbLeft(hdr: nat, ftr: nat, start: nat)
      requires SafeLeft(mem[..], hdr, start) && ftr == hdr + 2 + mem[hdr]
      modifies mem
      ensures mem[..] == LeftWords(old(mem[..]), hdr, start)
    {
      if hdr > start {
        var left := mem[hdr - 1];
        if !Present(mem[left + 1]) && mem[left] <= MAX_COALESCE {
          mem[left] := mem[left] + OVERHEAD + mem[hdr];
          mem[ftr] := left;
        }
      }
    }

    /** Release a payload. A null pointer, and an address whose header is already marked free, change nothing:
        since a release leaves the header marked free, releasing twice in a row is the same as once. */
    method Kfree(addr: nat)
      requires Valid()
      requires addr in AllLive() || addr == 0 || (2 <= addr <= mem.Length && !Present(mem[addr - 1]))
      modifies this, mem
      ensures Valid()
      ensures addr !in old(AllLive()) ==> State() == old(State()) && mem[..] == old(mem[..])
      ensures addr in old(AllLive()) ==>
        && State() == Released(old(State()), addr)
        && AllLive() == old(AllLive()) - {addr}
        && 2 <= addr <= mem.Length && !Present(mem[addr - 1])
      ensures Untouched(old(Words()), Words(), old(State())) && base == old(base) && limit == old(limit)
    {
      hide Tiled, IsLiveWord, Live, Span, FindFit, Free, SafeRight, SafeLeft, RightWords, LeftWords;
      if addr in AllLive() { LiveHeader(mem[..], State(), addr); }
      if addr == 0 {
        return;
      }
      var hdr := addr - 2;
      if !Present(mem[hdr + 1]) {
        return;
      }
      ghost var s, m := State(), mem[..];
      FreeReads(m, s, addr);
      CommitFree(m, s, addr);
      ReleasedLive(s, addr);
      var i := if HasUser(FlagsOf(mem[hdr + 1])) then 1 else 0;
      var ftr := addr + mem[hdr];
      mem[hdr + 1] := WithFlags(mem[hdr + 1], ClearPresent(FlagsOf(mem[hdr + 1])));
      assert mem[..] == MarkWords(m, hdr, ClearPresent(FlagsOf(m[hdr + 1])));
      ftr := AbsorbRight(hdr, ftr, ptr[i]);
      AbsorbLeft(hdr, ftr, base[i]);
      assert mem[..] == FreeWords(m, hdr, base[i], ptr[i]);
      assert mem[..][hdr + 1] == mem[hdr + 1];
      blocks := Released(s, addr).blocks;
      assert State() == Released(s, addr);
    }
  }
}
