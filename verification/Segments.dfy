/** The descriptor table the kernel is started with, and what a selector stands for in it. */
module Segments {
  import opened Words

  /** The six entries of eight bytes; the last is filled in for the task state segment. */
  const DESCRIPTORS: seq<nat> := [0, 0x00CF_9B00_0000_FFFF, 0x00CF_9200_0000_FFFF,
                                  0x00CF_FB00_0000_FFFF, 0x00CF_F200_0000_FFFF, 0]

  /** The access byte: present, two bits of privilege level, code or data, executable, …, writable, … */
  function Access(d: nat): nat { d / 0x100_0000_0000 % 0x100 }

  predicate IsPresent(d: nat) { Access(d) / 0x80 == 1 }

  function Level(d: nat): nat { Access(d) / 0x20 % 4 }

  predicate IsCodeOrData(d: nat) { Access(d) / 0x10 % 2 == 1 }

  predicate IsExecutable(d: nat) { Access(d) / 8 % 2 == 1 }

  /** For data: may be written. */
  predicate IsWritable(d: nat) { Access(d) / 2 % 2 == 1 }

  /** Starts at 0 and covers all addresses: the base is 0, the limit 0xFFFFF units of a page. */
  predicate IsFlat(d: nat) {
    && d / 0x1_0000 % 0x100_0000 == 0 && d / 0x100_0000_0000_0000 == 0
    && d % 0x1_0000 == 0xFFFF && d / 0x1_0000_0000_0000 % 0x10 == 0xF && d / 0x80_0000_0000_0000 % 2 == 1
  }

  predicate DescribesCode(d: nat, level: nat) {
    IsPresent(d) && IsCodeOrData(d) && IsFlat(d) && Level(d) == level && IsExecutable(d)
  }

  predicate DescribesData(d: nat, level: nat) {
    IsPresent(d) && IsCodeOrData(d) && IsFlat(d) && Level(d) == level && !IsExecutable(d) && IsWritable(d)
  }

  /** A selector: its two low bits are the level asked for, the third picks this table, the rest is the index. */
  predicate Selects(sel: Word, level: nat, index: nat) {
    sel == 8 * index + level && level < 4 && index < |DESCRIPTORS|
  }

  predicate SelectsCode(sel: Word, level: nat) {
    Selects(sel, level, sel / 8) && DescribesCode(DESCRIPTORS[sel / 8], level)
  }

  predicate SelectsData(sel: Word, level: nat) {
    Selects(sel, level, sel / 8) && DescribesData(DESCRIPTORS[sel / 8], level)
  }

  /** Entries 1 to 4 are code and data of the kernel, then of user programs. */
  lemma Entries()
    ensures DescribesCode(DESCRIPTORS[1], 0) && DescribesData(DESCRIPTORS[2], 0)
    ensures DescribesCode(DESCRIPTORS[3], 3) && DescribesData(DESCRIPTORS[4], 3)
    ensures !IsPresent(DESCRIPTORS[0])
  {
    assert Access(0x00CF_9B00_0000_FFFF) == 0x9B && Access(0x00CF_9200_0000_FFFF) == 0x92;
    assert Access(0x00CF_FB00_0000_FFFF) == 0xFB && Access(0x00CF_F200_0000_FFFF) == 0xF2;
  }
}
