/** Inode records and directory scans. */
module Directory {
  import opened Words
  import opened Arithmetic
  import opened Disk
  import opened BlockMap
  import opened FileRead

  // ---------------------------------------------------------------- inodes

  /** The fields of an inode record the reader uses: the size at byte 4, the block pointers from byte 40. */
  function ParseInode(s: seq<byte>): (ino: Inode)
    requires |s| >= 100
    ensures ino.Valid()
  {
    Inode(Le32(s, 4), seq<Word>(15, (i: nat) requires i < 15 => Le32(s, 40 + 4 * i)))
  }

  /** Byte address of inode record `inum`. */
  function InodeAddress(v: Volume, inum: Word): nat
    requires v.Valid() && inum != 0
  {
    v.Address(v.inodeTable((inum - 1) / v.inodesPerGroup)) + (inum - 1) % v.inodesPerGroup * v.inodeSize
  }

  /** What the code computes for it, in 32-bit arithmetic. */
  function InodeOffset(v: Volume, inum: Word): Word
    requires v.Valid() && inum != 0
  {
    (v.BlockOffset(v.inodeTable((inum - 1) / v.inodesPerGroup)) + (inum - 1) % v.inodesPerGroup * v.inodeSize)
    % WORD_LIMIT
  }

  /** The record of inode `inum`; none if there is no such inode or it cannot be read. */
  function InodeAt(v: Volume, inum: Word): (r: Option<Inode>)
    requires v.Valid()
    ensures r.Some? ==> r.value.Valid()
  {
    if inum == 0 || !v.CanRead(InodeAddress(v, inum), v.inodeSize) then None
    else Some(ParseInode(v.Bytes(InodeAddress(v, inum), v.inodeSize)))
  }

  /** The record the reader finds. */
  function InodeFound(v: Volume, inum: Word): (r: Option<Inode>)
    requires v.Valid()
    ensures r.Some? ==> r.value.Valid()
  {
    if inum == 0 || !v.CanRead(InodeOffset(v, inum), v.inodeSize) then None
    else Some(ParseInode(v.Bytes(InodeOffset(v, inum), v.inodeSize)))
  }

  predicate InodeInReach(v: Volume, inum: Word)
    requires v.Valid()
  {
    inum == 0 || InodeAddress(v, inum) < WORD_LIMIT
  }

  /** The reader looks for a record where it is, up to a multiple of 2^32, so finds it if it starts below 2^32. */
  lemma InodeFoundIsInodeAt(v: Volume, inum: Word)
    requires v.Valid()
    ensures inum != 0 ==> InodeOffset(v, inum) == InodeAddress(v, inum) % WORD_LIMIT
    ensures InodeInReach(v, inum) ==> InodeFound(v, inum) == InodeAt(v, inum)
  {
    hide Volume.Address, Volume.CanRead, Volume.Bytes, ParseInode;
    if inum != 0 {
      var x, y := v.Address(v.inodeTable((inum - 1) / v.inodesPerGroup)), (inum - 1) % v.inodesPerGroup * v.inodeSize;
      WrapSum(x, y);
    }
  }

  lemma WrapSum(x: nat, y: nat)
    ensures (x % WORD_LIMIT + y) % WORD_LIMIT == (x + y) % WORD_LIMIT
    ensures x + y < WORD_LIMIT ==> (x + y) % WORD_LIMIT == x + y
  {
  }

  // ---------------------------------------------------------------- writing a record down

  /** An inode record, field after field as it lies on the disk. */
  datatype Record = Record(mode: nat, uid: nat, size: Word, atime: Word, ctime: Word, mtime: Word, dtime: Word,
                           gid: nat, links: nat, blocks: Word, flags: Word, osd1: Word, block: seq<Word>,
                           rest: seq<byte>)

  function Bytes32s(ns: seq<Word>): (s: seq<byte>)
    ensures |s| == 4 * |ns|
  {
    if ns == [] then [] else Bytes32(ns[0]) + Bytes32s(ns[1..])
  }

  predicate FitsRecord(r: Record) {
    r.mode < 0x1_0000 && r.uid < 0x1_0000 && r.gid < 0x1_0000 && r.links < 0x1_0000 && |r.block| == 15
  }

  function EncodeRecord(r: Record): (s: seq<byte>)
    requires FitsRecord(r)
    ensures |s| == 100 + |r.rest|
  {
    Bytes16(r.mode) + Bytes16(r.uid) + Bytes32(r.size)
    + Bytes32(r.atime) + Bytes32(r.ctime) + Bytes32(r.mtime) + Bytes32(r.dtime)
    + Bytes16(r.gid) + Bytes16(r.links) + Bytes32(r.blocks) + Bytes32(r.flags) + Bytes32(r.osd1)
    + Bytes32s(r.block) + r.rest
  }

  lemma {:induction false} Bytes32sAt(ns: seq<Word>, i: nat)
    requires i < |ns|
    ensures Bytes32s(ns)[4 * i..4 * i + 4] == Bytes32(ns[i])
  {
    hide Bytes32;
    if i > 0 {
      Bytes32sAt(ns[1..], i - 1);
      assert Bytes32s(ns)[4 * i..4 * i + 4] == Bytes32s(ns[1..])[4 * (i - 1)..4 * (i - 1) + 4];
    }
  }

  /** The reader takes size and pointers from a record as they were written. */
  lemma RecordRoundTrip(r: Record)
    requires FitsRecord(r)
    ensures ParseInode(EncodeRecord(r)) == Inode(r.size, r.block)
  {
    hide Bytes16, Bytes32, Bytes32s, Le32;
    var s := EncodeRecord(r);
    assert s[4..8] == Bytes32(r.size);
    Le32OfBytes(s, 4, r.size);
    assert s[40..100] == Bytes32s(r.block);
    forall i | 0 <= i < 15 ensures Le32(s, 40 + 4 * i) == r.block[i] {
      Bytes32sAt(r.block, i);
      assert s[40 + 4 * i..40 + 4 * i + 4] == s[40..100][4 * i..4 * i + 4];
      Le32OfBytes(s, 40 + 4 * i, r.block[i]);
    }
    assert ParseInode(s).block == r.block;
  }

  /** The device holds a record as number `k` of the table of group `g`. */
  ghost predicate HoldsRecord(v: Volume, g: nat, k: nat, r: Record)
    requires v.Valid()
  {
    var at := v.start + v.inodeTable(g) * v.blockSize + k * v.inodeSize;
    && k < v.inodesPerGroup && FitsRecord(r) && 100 + |r.rest| == v.inodeSize
    && at + v.inodeSize <= |v.dev.data| && v.dev.data[at..at + v.inodeSize] == EncodeRecord(r)
  }

  /** Inodes are numbered from 1, group after group. */
  lemma RecordIsAt(v: Volume, g: nat, k: nat, r: Record, inum: Word)
    requires v.Valid() && HoldsRecord(v, g, k, r) && inum == g * v.inodesPerGroup + k + 1
    ensures InodeAt(v, inum) ==
            if v.CanRead(InodeAddress(v, inum), v.inodeSize) then Some(Inode(r.size, r.block)) else None
  {
    hide EncodeRecord, ParseInode, Volume.CanRead;
    DivMod(g, v.inodesPerGroup, k);
    RecordRoundTrip(r);
    BytesOnDevice(v, InodeAddress(v, inum), v.inodeSize);
  }

  /** Whatever record has been written as number `inum`, if it can be read, `r` is its size and pointers. */
  ghost predicate AsWritten(v: Volume, inum: Word, r: Option<Inode>)
    requires v.Valid()
  {
    inum != 0 && InodeInReach(v, inum) ==>
      var readable := v.CanRead(InodeAddress(v, inum), v.inodeSize);
      forall g: nat, k: nat, rec: Record ::
        HoldsRecord(v, g, k, rec) && inum == g * v.inodesPerGroup + k + 1 ==>
          r == if readable then Some(Inode(rec.size, rec.block)) else None
  }

  lemma RecordsFound(v: Volume, inum: Word)
    requires v.Valid()
    ensures AsWritten(v, inum, InodeFound(v, inum))
  {
    hide HoldsRecord, InodeInReach, InodeFound, InodeAt, Volume.CanRead;
    forall g: nat, k: nat, rec: Record | HoldsRecord(v, g, k, rec) && inum == g * v.inodesPerGroup + k + 1
                                         && InodeInReach(v, inum)
      ensures InodeFound(v, inum) ==
              if v.CanRead(InodeAddress(v, inum), v.inodeSize) then Some(Inode(rec.size, rec.block)) else None
    {
      RecordIsAt(v, g, k, rec, inum);
      InodeFoundIsInodeAt(v, inum);
    }
  }

  method GetInode(v: Volume, inum: Word) returns (r: Option<Inode>)
    requires v.Valid()
    ensures r == InodeFound(v, inum)
    ensures AsWritten(v, inum, r)
  {
    RecordsFound(v, inum);
    hide AsWritten;
    if inum == 0 {
      return None;
    }
    var bg, lid := (inum - 1) / v.inodesPerGroup, (inum - 1) % v.inodesPerGroup;
    var table := v.inodeTable(bg);
    var buf := new byte[v.inodeSize];
    var off := (v.BlockOffset(table) + lid * v.inodeSize) % WORD_LIMIT;
    var failed := Read(v, buf, 0, off, v.inodeSize);
    if failed {
      return None;
    }
    BytesOnDevice(v, off, v.inodeSize);
    assert buf[..] == v.Bytes(off, v.inodeSize);
    r := Some(ParseInode(buf[..]));
  }

  // ---------------------------------------------------------------- directory blocks

  datatype Entry = Entry(inode: Word, recLen: nat, kind: byte, name: seq<byte>)

  /** The bytes are a chain of entries, each long enough for its name, ending exactly at the end. */
  predicate WellLaid(s: seq<byte>)
    decreases |s|
  {
    s == [] ||
    (|s| >= 8 && 8 + s[6] as int <= Le16(s, 4) <= |s| && WellLaid(s[Le16(s, 4)..]))
  }

  function FirstEntry(s: seq<byte>): Entry
    requires WellLaid(s) && s != []
  {
    Entry(Le32(s, 0), Le16(s, 4), s[7], s[8..8 + s[6] as int])
  }

  function Entries(s: seq<byte>): seq<Entry>
    requires WellLaid(s)
    decreases |s|
  {
    if s == [] then [] else [FirstEntry(s)] + Entries(s[Le16(s, 4)..])
  }

  /** The inode of the first used entry of that name; 0 if there is none. */
  function Lookup(es: seq<Entry>, name: seq<byte>): Word {
    if es == [] then 0
    else if es[0].inode != 0 && es[0].name == name then es[0].inode
    else Lookup(es[1..], name)
  }

  lemma {:induction false} LookupConcat(xs: seq<Entry>, ys: seq<Entry>, name: seq<byte>)
    ensures Lookup(xs + ys, name) == if Lookup(xs, name) != 0 then Lookup(xs, name) else Lookup(ys, name)
  {
    if xs == [] {
      assert xs + ys == ys;
    } else {
      assert (xs + ys)[1..] == xs[1..] + ys;
      LookupConcat(xs[1..], ys, name);
    }
  }

  /** `Lookup` finds the first match and nothing before it. */
  lemma {:induction false} LookupIsFirst(es: seq<Entry>, name: seq<byte>)
    ensures Lookup(es, name) == 0 <==> forall i :: 0 <= i < |es| ==> es[i].inode == 0 || es[i].name != name
    ensures Lookup(es, name) != 0 ==>
      exists k :: 0 <= k < |es| && es[k].inode == Lookup(es, name) && es[k].name == name
                  && forall i :: 0 <= i < k ==> es[i].inode == 0 || es[i].name != name
  {
    if es != [] && !(es[0].inode != 0 && es[0].name == name) {
      LookupIsFirst(es[1..], name);
      if Lookup(es, name) != 0 {
        var k :| 0 <= k < |es[1..]| && es[1..][k].inode == Lookup(es, name) && es[1..][k].name == name
                 && forall i :: 0 <= i < k ==> es[1..][i].inode == 0 || es[1..][i].name != name;
        assert es[k + 1] == es[1..][k];
        forall i | 0 <= i < k + 1 ensures es[i].inode == 0 || es[i].name != name {
          if i > 0 { assert es[i] == es[1..][i - 1]; }
        }
      } else {
        forall i | 0 <= i < |es| ensures es[i].inode == 0 || es[i].name != name {
          if i > 0 { assert es[i] == es[1..][i - 1]; }
        }
      }
    }
  }

  // ---------------------------------------------------------------- writing entries down

  predicate Fits(e: Entry) {
    |e.name| < 256 && 8 + |e.name| <= e.recLen < 0x1_0000
  }

  function EncodeEntry(e: Entry): (s: seq<byte>)
    requires Fits(e)
    ensures |s| == e.recLen
  {
    Bytes32(e.inode) + Bytes16(e.recLen) + [|e.name|, e.kind]
    + e.name + seq<byte>(e.recLen - 8 - |e.name|, _ => 0)
  }

  function Encode(es: seq<Entry>): seq<byte>
    requires forall e :: e in es ==> Fits(e)
  {
    if es == [] then [] else EncodeEntry(es[0]) + Encode(es[1..])
  }

  lemma EntryRoundTrip(e: Entry, rest: seq<byte>)
    requires Fits(e)
    ensures var s := EncodeEntry(e) + rest;
            && |s| >= e.recLen >= 8
            && Le32(s, 0) == e.inode && Le16(s, 4) == e.recLen && s[6] == |e.name| && s[7] == e.kind
            && s[8..8 + |e.name|] == e.name && s[e.recLen..] == rest
  {
    var h := EncodeEntry(e);
    var s := h + rest;
    assert forall i :: 0 <= i < 8 ==> s[i] == h[i];
    BytesOfWord(e.inode);
  }

  /** Any list of entries that fit is read back from its own encoding. */
  lemma {:induction false} EntriesRoundTrip(es: seq<Entry>)
    requires forall e :: e in es ==> Fits(e)
    ensures WellLaid(Encode(es)) && Entries(Encode(es)) == es
  {
    if es != [] {
      EntriesRoundTrip(es[1..]);
      EntryRoundTrip(es[0], Encode(es[1..]));
      hide EncodeEntry, Le32, Le16;
      assert Encode(es) == EncodeEntry(es[0]) + Encode(es[1..]);
    }
  }

  // ---------------------------------------------------------------- a whole directory

  /** Where block `i` of a file starts. */
  function ChunkStart(v: Volume, i: nat): nat { i * v.blockSize }

  /** Bytes in block `i` of a file. */
  function ChunkSize(v: Volume, ino: Inode, i: nat): nat
    requires v.Valid()
  {
    if ChunkStart(v, i) >= ino.size then 0 else Min(v.blockSize, ino.size - ChunkStart(v, i))
  }

  predicate ChunkIntact(v: Volume, ino: Inode, i: nat)
    requires v.Valid() && ino.Valid()
  {
    var off, n := ChunkStart(v, i), ChunkSize(v, ino, i);
    RangeIntact(v, ino, off, n) && WellLaid(FileBytes(v, ino, off, n))
  }

  /** The entries in block `i`. */
  function ChunkEntries(v: Volume, ino: Inode, i: nat): seq<Entry>
    requires v.Valid() && ino.Valid() && ChunkIntact(v, ino, i)
  {
    Entries(FileBytes(v, ino, ChunkStart(v, i), ChunkSize(v, ino, i)))
  }

  function ChunkCount(v: Volume, ino: Inode): nat
    requires v.Valid()
  {
    CeilDiv(ino.size, v.blockSize)
  }

  /** The search for a name from block `i` on meets only intact blocks before it ends. */
  predicate SearchIntact(v: Volume, ino: Inode, name: seq<byte>, i: nat)
    requires v.Valid() && ino.Valid()
    decreases ChunkCount(v, ino) - i
  {
    i >= ChunkCount(v, ino) ||
    (ChunkIntact(v, ino, i) && (Lookup(ChunkEntries(v, ino, i), name) != 0 || SearchIntact(v, ino, name, i + 1)))
  }

  /** What it finds, block by block. */
  function Search(v: Volume, ino: Inode, name: seq<byte>, i: nat): Word
    requires v.Valid() && ino.Valid() && SearchIntact(v, ino, name, i)
    decreases ChunkCount(v, ino) - i
  {
    if i >= ChunkCount(v, ino) then 0
    else if Lookup(ChunkEntries(v, ino, i), name) != 0 then Lookup(ChunkEntries(v, ino, i), name)
    else Search(v, ino, name, i + 1)
  }

  /** The first `k` blocks of a directory can be read and hold chains of entries. */
  predicate PrefixIntact(v: Volume, ino: Inode, k: nat)
    requires v.Valid() && ino.Valid()
  {
    forall i :: 0 <= i < k ==> ChunkIntact(v, ino, i)
  }

  /** Their entries, in order. */
  function DirEntries(v: Volume, ino: Inode, k: nat): seq<Entry>
    requires v.Valid() && ino.Valid() && PrefixIntact(v, ino, k)
  {
    if k == 0 then [] else DirEntries(v, ino, k - 1) + ChunkEntries(v, ino, k - 1)
  }

  /** The first `k` blocks are intact and settle the search: they hold a match, or there are no more. */
  predicate Settles(v: Volume, ino: Inode, name: seq<byte>, k: nat)
    requires v.Valid() && ino.Valid()
  {
    k <= ChunkCount(v, ino) && PrefixIntact(v, ino, k) &&
    (k == ChunkCount(v, ino) || Lookup(DirEntries(v, ino, k), name) != 0)
  }

  /** Blocks after the first match do not matter. */
  lemma {:induction false} LaterBlocks(v: Volume, ino: Inode, name: seq<byte>, j: nat, k: nat)
    requires v.Valid() && ino.Valid() && j <= k && PrefixIntact(v, ino, k)
    requires Lookup(DirEntries(v, ino, j), name) != 0
    ensures Lookup(DirEntries(v, ino, k), name) == Lookup(DirEntries(v, ino, j), name)
    decreases k
  {
    hide ChunkIntact, ChunkEntries, Lookup;
    if j < k {
      LaterBlocks(v, ino, name, j, k - 1);
      LookupConcat(DirEntries(v, ino, k - 1), ChunkEntries(v, ino, k - 1), name);
    }
  }

  lemma {:induction false} SearchFrom(v: Volume, ino: Inode, name: seq<byte>, i: nat, k: nat)
    requires v.Valid() && ino.Valid() && i <= k && Settles(v, ino, name, k)
    requires PrefixIntact(v, ino, i) && Lookup(DirEntries(v, ino, i), name) == 0
    ensures SearchIntact(v, ino, name, i) && Search(v, ino, name, i) == Lookup(DirEntries(v, ino, k), name)
    decreases k - i
  {
    hide ChunkIntact, ChunkEntries, ChunkCount, Lookup;
    if i < k {
      LookupConcat(DirEntries(v, ino, i), ChunkEntries(v, ino, i), name);
      if Lookup(ChunkEntries(v, ino, i), name) != 0 {
        LaterBlocks(v, ino, name, i + 1, k);
      } else {
        SearchFrom(v, ino, name, i + 1, k);
      }
    }
  }

  /** The search finds the first match among the entries of any blocks that settle it. */
  lemma SearchIsLookup(v: Volume, ino: Inode, name: seq<byte>, k: nat)
    requires v.Valid() && ino.Valid() && Settles(v, ino, name, k)
    ensures SearchIntact(v, ino, name, 0) && Search(v, ino, name, 0) == Lookup(DirEntries(v, ino, k), name)
  {
    SearchFrom(v, ino, name, 0, k);
  }

  lemma {:induction false} SearchEnds(v: Volume, ino: Inode, name: seq<byte>, i: nat) returns (k: nat)
    requires v.Valid() && ino.Valid() && i <= ChunkCount(v, ino) && SearchIntact(v, ino, name, i)
    requires PrefixIntact(v, ino, i) && Lookup(DirEntries(v, ino, i), name) == 0
    ensures Settles(v, ino, name, k)
    decreases ChunkCount(v, ino) - i
  {
    hide ChunkIntact, ChunkEntries, ChunkCount, Lookup;
    k := i;
    if i < ChunkCount(v, ino) {
      LookupConcat(DirEntries(v, ino, i), ChunkEntries(v, ino, i), name);
      k := i + 1;
      if Lookup(ChunkEntries(v, ino, i), name) == 0 { k := SearchEnds(v, ino, name, i + 1); }
    }
  }

  /** A search that meets only intact blocks is settled by some of them: the two descriptions agree. */
  lemma SearchIsSettled(v: Volume, ino: Inode, name: seq<byte>)
    requires v.Valid() && ino.Valid()
    ensures SearchIntact(v, ino, name, 0) <==> exists k: nat :: Settles(v, ino, name, k)
  {
    EmptyLookup(name);
    if SearchIntact(v, ino, name, 0) {
      var k := SearchEnds(v, ino, name, 0);
    }
    forall k: nat | Settles(v, ino, name, k) ensures SearchIntact(v, ino, name, 0) {
      SearchFrom(v, ino, name, 0, k);
    }
  }

  // ---------------------------------------------------------------- the scans

  /** A byte at or after the buffer; past its end lies whatever memory holds there. */
  function Peek(buf: array<byte>, junk: nat -> byte, i: nat): byte
    reads buf
  {
    if i < buf.Length then buf[i] else junk(i)
  }

  function PeekWord(buf: array<byte>, junk: nat -> byte, at: nat): Word
    reads buf
  {
    Peek(buf, junk, at) as int + 0x100 * Peek(buf, junk, at + 1) as int
    + 0x1_0000 * Peek(buf, junk, at + 2) as int + 0x100_0000 * Peek(buf, junk, at + 3) as int
  }

  /** The first bytes that differ between the name field at `at` and a name are those at `k`. */
  ghost predicate DifferAt(buf: array<byte>, junk: nat -> byte, at: nat, name: seq<byte>, k: nat)
    reads buf
  {
    k < |name| && Peek(buf, junk, at + k) != name[k]
    && forall i {:trigger name[i]} :: 0 <= i < k ==> Peek(buf, junk, at + i) == name[i]
  }

  /** `memcmp` of the name field at `at` with the name looked for. */
  method CompareName(buf: array<byte>, junk: nat -> byte, at: nat, name: seq<byte>) returns (r: int)
    ensures r == 0 <==> forall i {:trigger name[i]} :: 0 <= i < |name| ==> Peek(buf, junk, at + i) == name[i]
    ensures r != 0 ==> exists k: nat :: DifferAt(buf, junk, at, name, k)
                                        && r == if Peek(buf, junk, at + k) < name[k] then -1 else 1
  {
    for i := 0 to |name|
      invariant forall j {:trigger name[j]} :: 0 <= j < i ==> Peek(buf, junk, at + j) == name[j]
    {
      if Peek(buf, junk, at + i) < name[i] {
        assert DifferAt(buf, junk, at, name, i);
        return -1;
      } else if Peek(buf, junk, at + i) > name[i] {
        assert DifferAt(buf, junk, at, name, i);
        return 1;
      }
    }
    return 0;
  }

  lemma SubSlice(b: seq<byte>, lo: nat, hi: nat, i: nat, j: nat)
    requires lo <= hi <= |b| && i <= j <= hi - lo
    ensures b[lo..hi][i..j] == b[lo + i..lo + j]
  {
    var x, y := b[lo..hi][i..j], b[lo + i..lo + j];
    forall k | 0 <= k < j - i ensures x[k] == y[k] {
      assert x[k] == b[lo..hi][i + k] == b[lo + (i + k)];
    }
  }

  /** One entry of the chain at `ptr`, in terms of the bytes of the whole buffer. */
  lemma ChainStep(buf: seq<byte>, ptr: nat, got: nat, name: seq<byte>)
    requires ptr < got <= |buf| && WellLaid(buf[ptr..got])
    ensures ptr + 8 <= ptr + 8 + buf[ptr + 6] as int <= got
    ensures var len, inode := Le16(buf, ptr + 4), Le32(buf, ptr);
            && 0 < len && ptr + len <= got && WellLaid(buf[ptr + len..got])
            && Lookup(Entries(buf[ptr..got]), name) ==
               if inode != 0 && buf[ptr + 8..ptr + 8 + buf[ptr + 6] as int] == name then inode
               else Lookup(Entries(buf[ptr + len..got]), name)
  {
    hide Le16, Le32;
    var s := buf[ptr..got];
    SameFields(buf, ptr, got);
    assert s[Le16(s, 4)..] == buf[ptr + Le16(s, 4)..got];
    var n: nat := s[6];
    assert n == buf[ptr + 6];
    SubSlice(buf, ptr, got, 8, 8 + n);
    assert Entries(s)[1..] == Entries(s[Le16(s, 4)..]);
  }

  lemma SameFields(buf: seq<byte>, ptr: nat, got: nat)
    requires ptr + 8 <= got <= |buf|
    ensures Le16(buf[ptr..got], 4) == Le16(buf, ptr + 4) && Le32(buf[ptr..got], 0) == Le32(buf, ptr)
  {
  }

  /** The entry header fields at `ptr`. */
  method ReadHeader(buf: array<byte>, ptr: nat, junk: nat -> byte) returns (inode: Word, recLen: nat, nameLen: nat)
    ensures inode == PeekWord(buf, junk, ptr) && nameLen == Peek(buf, junk, ptr + 6)
    ensures ptr + 8 <= buf.Length ==>
      inode == Le32(buf[..], ptr) && recLen == Le16(buf[..], ptr + 4) && nameLen == buf[ptr + 6]
  {
    inode := PeekWord(buf, junk, ptr);
    recLen := Peek(buf, junk, ptr + 4) as int + 0x100 * Peek(buf, junk, ptr + 5) as int;
    nameLen := Peek(buf, junk, ptr + 6);
  }

  /** At `ptr` there is the header of an entry for inode `r`, followed by the name. */
  ghost predicate HasEntry(buf: array<byte>, junk: nat -> byte, ptr: nat, r: Word, name: seq<byte>)
    reads buf
  {
    && r == PeekWord(buf, junk, ptr)
    && Peek(buf, junk, ptr + 6) as int == |name|
    && forall i {:trigger name[i]} :: 0 <= i < |name| ==> Peek(buf, junk, ptr + 8 + i) == name[i]
  }

  /** The inner loop of both lookups: the first matching entry among the `got` bytes read. Terminates whatever
      the record lengths say, because each is positive or ends the scan, and whatever they say reports only an
      inode whose header and name it has seen. */
  method ScanBlock(buf: array<byte>, got: nat, name: seq<byte>, junk: nat -> byte) returns (r: Word)
    requires got <= buf.Length
    ensures WellLaid(buf[..got]) ==> r == Lookup(Entries(buf[..got]), name)
    ensures r != 0 ==> exists ptr: nat :: ptr < got && HasEntry(buf, junk, ptr, r, name)
  {
    hide WellLaid, Entries, Lookup, Le16, Le32;
    ghost var s := buf[..];
    assert s[..got] == buf[..got] == s[0..got];
    ghost var laid := WellLaid(s[..got]);
    ghost var goal := if laid then Lookup(Entries(s[..got]), name) else 0;
    var ptr := 0;
    while ptr < got
      invariant buf[..] == s
      invariant laid ==> ptr <= got && WellLaid(s[ptr..got]) && goal == Lookup(Entries(s[ptr..got]), name)
      decreases got - ptr
    {
      var inode, recLen, nameLen := ReadHeader(buf, ptr, junk);
      if laid {
        ChainStep(s, ptr, got, name);
        assert inode == Le32(s, ptr) && recLen == Le16(s, ptr + 4) && nameLen == s[ptr + 6];
      }
      if recLen == 0 {
        return 0;
      }
      if inode != 0 && nameLen == |name| {
        var cmp := CompareName(buf, junk, ptr + 8, name);
        if laid { NamesAgree(buf, junk, ptr + 8, name); }
        if cmp == 0 {
          assert HasEntry(buf, junk, ptr, inode, name);
          return inode;
        }
      }
      ptr := ptr + recLen;
    }
    if laid { NothingLeft(s[ptr..got], name); }
    return 0;
  }

  lemma NamesAgree(buf: array<byte>, junk: nat -> byte, at: nat, name: seq<byte>)
    requires at + |name| <= buf.Length
    ensures buf[..][at..at + |name|] == name <==>
            forall i {:trigger name[i]} :: 0 <= i < |name| ==> Peek(buf, junk, at + i) == name[i]
  {
    var field := buf[..][at..at + |name|];
    forall i | 0 <= i < |name| ensures field[i] == Peek(buf, junk, at + i) {
    }
    if forall i {:trigger name[i]} :: 0 <= i < |name| ==> Peek(buf, junk, at + i) == name[i] {
      assert field == name;
    }
  }

  lemma NothingLeft(s: seq<byte>, name: seq<byte>)
    requires s == [] && WellLaid(s)
    ensures Lookup(Entries(s), name) == 0
  {
  }

  lemma OutcomeBound(v: Volume, ino: Inode, off: nat, len: nat)
    requires v.Valid() && ino.Valid() && off < ino.size
    ensures ReadOutcome(v, ino, off, len).Got? ==> ReadOutcome(v, ino, off, len).n <= Min(len, ino.size - off)
  {
  }

  lemma ChunkBounds(size: nat, total: nat, i: nat)
    requires size > 0 && i * size < total
    ensures i < CeilDiv(total, size)
    ensures BlockIndex(i * size, size) == i && Skip(i * size, size) == 0
    ensures (i + 1) * size == i * size + size
  {
    assert (i + 1) * size == i * size + size;
    BlocksCover(total, size);
    if CeilDiv(total, size) <= i { NotBeyond(CeilDiv(total, size), i, size); }
    DivMod(i, size, 0);
  }

  lemma ChunkRead(v: Volume, dir: Inode, i: nat)
    requires v.Valid() && dir.Valid() && ChunkIntact(v, dir, i) && ChunkStart(v, i) < dir.size
    ensures var off, m := ChunkStart(v, i), ChunkSize(v, dir, i);
            && ReadOutcome(v, dir, off, m) == Got(m)
            && BytesFound(v, dir, off, m) == FileBytes(v, dir, off, m)
  {
    hide RangeIntact, WellLaid, BytesFound, FileBytes, ReadOutcome, Volume.Valid, Inode.Valid, BlockIndex, Skip,
         CeilDiv;
    ValidSizes(v);
    ChunkBounds(v.blockSize, dir.size, i);
    CompleteRead(v, dir, ChunkStart(v, i), ChunkSize(v, dir, i));
  }

  /** Reading block `i` in such a search yields its bytes, and the search goes on unless they hold a match. */
  lemma ChunkStep(v: Volume, dir: Inode, i: nat, name: seq<byte>)
    requires v.Valid() && dir.Valid() && SearchIntact(v, dir, name, i) && ChunkStart(v, i) < dir.size
    ensures var off, m := ChunkStart(v, i), ChunkSize(v, dir, i);
            && 0 < m <= 0x1_0000
            && ReadOutcome(v, dir, off, m) == Got(m)
            && BytesFound(v, dir, off, m) == FileBytes(v, dir, off, m)
            && WellLaid(FileBytes(v, dir, off, m))
            && (off + m == ChunkStart(v, i + 1) || off + m == dir.size <= ChunkStart(v, i + 1))
            && var here := Lookup(Entries(FileBytes(v, dir, off, m)), name);
            && (here == 0 ==> SearchIntact(v, dir, name, i + 1))
            && Search(v, dir, name, i) == if here != 0 then here else Search(v, dir, name, i + 1)
  {
    hide *;
    ChunkEnds(v, dir, i);
    SearchStep(v, dir, i, name);
    ChunkRead(v, dir, i);
  }

  lemma ChunkEnds(v: Volume, dir: Inode, i: nat)
    requires v.Valid() && ChunkStart(v, i) < dir.size
    ensures var off, m := ChunkStart(v, i), ChunkSize(v, dir, i);
            && i < CeilDiv(dir.size, v.blockSize) && 0 < m <= 0x1_0000
            && (off + m == ChunkStart(v, i + 1) || off + m == dir.size <= ChunkStart(v, i + 1))
  {
    hide CeilDiv;
    ChunkBounds(v.blockSize, dir.size, i);
  }

  lemma SearchStep(v: Volume, dir: Inode, i: nat, name: seq<byte>)
    requires v.Valid() && dir.Valid() && SearchIntact(v, dir, name, i) && i < CeilDiv(dir.size, v.blockSize)
    ensures var off, m := ChunkStart(v, i), ChunkSize(v, dir, i);
            && ChunkIntact(v, dir, i) && WellLaid(FileBytes(v, dir, off, m))
            && var here := Lookup(Entries(FileBytes(v, dir, off, m)), name);
            && (here == 0 ==> SearchIntact(v, dir, name, i + 1))
            && Search(v, dir, name, i) == if here != 0 then here else Search(v, dir, name, i + 1)
  {
    hide RangeIntact, WellLaid, Entries, FileBytes, Lookup, CeilDiv, Volume.Valid, Inode.Valid;
  }

  lemma FirstChunk(v: Volume)
    ensures ChunkStart(v, 0) == 0
  {
  }

  lemma NotBeyond(c: nat, i: nat, size: nat)
    requires c <= i
    ensures c * size <= i * size
  {
    if c < i { NextBlockFits(c, i, size); }
  }

  lemma NoMoreChunks(v: Volume, dir: Inode, i: nat, name: seq<byte>)
    requires v.Valid() && dir.Valid() && SearchIntact(v, dir, name, i) && dir.size <= ChunkStart(v, i)
    ensures Search(v, dir, name, i) == 0
  {
    BlocksCover(dir.size, v.blockSize);
    if i < CeilDiv(dir.size, v.blockSize) {
      FewerBlocksFallShort(dir.size, v.blockSize, i);
    }
  }

  /** The outer loop of both lookups: block after block until a match, a failed read or the end. Terminates on
      any directory because each read that continues the loop returns at least one byte. */
  method ScanDirectory(v: Volume, dir: Inode, name: seq<byte>, junk: nat -> byte) returns (r: Word)
    requires v.Valid() && dir.Valid()
    ensures SearchIntact(v, dir, name, 0) ==> r == Search(v, dir, name, 0)
  {
    hide SearchIntact, Search, Lookup, WellLaid, Entries, ReadOutcome, BytesFound, FileBytes, Volume.Valid, Inode.Valid,
         ChunkStart;
    ValidSizes(v);
    FirstChunk(v);
    var blockBuf := new byte[v.blockSize];
    var offset := 0;
    ghost var i := 0;
    ghost var intact := SearchIntact(v, dir, name, 0);
    while offset < dir.size
      invariant offset <= dir.size
      invariant intact ==>
        && (offset == ChunkStart(v, i) || offset == dir.size <= ChunkStart(v, i))
        && SearchIntact(v, dir, name, i) && Search(v, dir, name, 0) == Search(v, dir, name, i)
      decreases dir.size - offset
    {
      var toRead := Min(v.blockSize, dir.size - offset);
      if intact { ChunkStep(v, dir, i, name); }
      OutcomeBound(v, dir, offset, toRead);
      ghost var before := blockBuf[..];
      var got := ReadInode(v, dir, blockBuf, offset, toRead);
      if got <= 0 {
        break;
      }
      assert intact ==> blockBuf[..got] == FileBytes(v, dir, offset, toRead);
      r := ScanBlock(blockBuf, got, name, junk);
      if r != 0 {
        return;
      }
      offset := offset + got;
      i := i + 1;
    }
    if intact { NoMoreChunks(v, dir, i, name); }
    return 0;
  }

  lemma EmptyLookup(name: seq<byte>)
    ensures Lookup([], name) == 0
  {
  }

  method LookupInodeNum(v: Volume, dir: Option<Inode>, name: seq<byte>, junk: nat -> byte) returns (r: Word)
    requires v.Valid() && (dir.Some? ==> dir.value.Valid())
    ensures dir.None? ==> r == 0
    ensures dir.Some? && SearchIntact(v, dir.value, name, 0) ==> r == Search(v, dir.value, name, 0)
  {
    if dir.None? {
      return 0;
    }
    r := ScanDirectory(v, dir.value, name, junk);
  }

  method LookupInode(v: Volume, dir: Option<Inode>, name: seq<byte>, junk: nat -> byte) returns (r: Option<Inode>)
    requires v.Valid() && (dir.Some? ==> dir.value.Valid())
    ensures dir.None? ==> r == None
    ensures dir.Some? && SearchIntact(v, dir.value, name, 0) ==> r == InodeFound(v, Search(v, dir.value, name, 0))
    ensures r.Some? ==> r.value.Valid()
  {
    if dir.None? {
      return None;
    }
    var inum := ScanDirectory(v, dir.value, name, junk);
    if inum == 0 {
      return None;
    }
    r := GetInode(v, inum);
  }
}
