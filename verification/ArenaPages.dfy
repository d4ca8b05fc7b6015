/** The heap's arenas as page addresses: what is handed to user programs faults in for them, and what the kernel
    keeps does not. */
module ArenaPages {
  import opened Words
  import opened HeapBlocks
  import opened HeapState
  import opened DemandPaging

  /** The arenas are where the allocator starts them. */
  predicate AtStart(s: Layout) {
    s.Shape() && 4 * s.base[1] == 0x1000_0000 && 4 * s.limit[1] == 0xC000_0000 && 4 * s.base[0] >= 0xC000_0000
  }

  /** A fault at any byte of a payload of the user arena asks for a page that user programs may write; at any byte of
      one of the kernel's, for a page that only the kernel may. */
  lemma PayloadsFaultIn(s: Layout, p: nat, a: Word)
    requires AtStart(s) && p in s.AllLive() && 4 * p <= a < 4 * (p + s.AllLive()[p])
    ensures p in Live(s.base[1], s.blocks[1]) ==> RightsFor(a) == 6 && WantsUser(RightsFor(a))
    ensures p in Live(s.base[0], s.blocks[0]) ==> RightsFor(a) == 2 && !WantsUser(RightsFor(a))
    ensures p in Live(s.base[0], s.blocks[0]) <==> p !in Live(s.base[1], s.blocks[1])
    ensures WantsRw(RightsFor(a))
  {
    InOneArena(s, p);
  }
}
