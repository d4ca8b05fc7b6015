/** Reading a byte range of a file: truncation, holes, and the prefix left by a failed block. */
module FileRead {
  import opened Words
  import opened Arithmetic
  import opened Disk
  import opened BlockMap

  const E2BIG := 3
  const EMEM := 4

  /** The byte of the file at `pos`, as the tables on disk have it; holes read as zero. */
  function FileByte(v: Volume, ino: Inode, pos: nat): byte
    requires v.Valid() && ino.Valid()
  {
    var b := BlockOf(v, ino, pos / v.blockSize);
    if b == 0 then 0 else v.ByteAt(v.Address(b) + pos % v.blockSize)
  }

  function FileBytes(v: Volume, ino: Inode, off: nat, n: nat): (s: seq<byte>)
    requires v.Valid() && ino.Valid()
    ensures |s| == n
    ensures forall i {:trigger s[i]} :: 0 <= i < n ==> s[i] == FileByte(v, ino, off + i)
  {
    seq<byte>(n, (i: nat) => FileByte(v, ino, off + i))
  }

  /** The byte the reader produces at `pos`. */
  function ByteFound(v: Volume, ino: Inode, pos: nat): byte
    requires v.Valid() && ino.Valid()
  {
    var b := BlockFound(v, ino, pos / v.blockSize);
    if b == 0 then 0 else v.ByteAt(v.BlockOffset(b) + pos % v.blockSize)
  }

  function BytesFound(v: Volume, ino: Inode, off: nat, n: nat): (s: seq<byte>)
    requires v.Valid() && ino.Valid()
    ensures |s| == n
    ensures forall i {:trigger s[i]} :: 0 <= i < n ==> s[i] == ByteFound(v, ino, off + i)
  {
    seq<byte>(n, (i: nat) => ByteFound(v, ino, off + i))
  }

  /** The reader looks for a block of the file where it is: its tables can be read, and it and they start below
      2^32. */
  predicate Locatable(v: Volume, ino: Inode, block: nat)
    requires v.Valid() && ino.Valid()
  {
    Reachable(v, ino, block) && (BlockOf(v, ino, block) == 0 || v.InReach(BlockOf(v, ino, block)))
  }

  /** On such blocks the reader produces the bytes of the file. */
  lemma BytesFoundAreFileBytes(v: Volume, ino: Inode, off: nat, n: nat)
    requires v.Valid() && ino.Valid()
    requires forall pos :: off <= pos < off + n ==> Locatable(v, ino, pos / v.blockSize)
    ensures BytesFound(v, ino, off, n) == FileBytes(v, ino, off, n)
  {
    hide ByteFound, FileByte, Locatable;
    forall i | 0 <= i < n ensures BytesFound(v, ino, off, n)[i] == FileBytes(v, ino, off, n)[i] {
      assert Locatable(v, ino, (off + i) / v.blockSize);
      ByteFoundIsFileByte(v, ino, off + i);
    }
  }

  lemma ByteFoundIsFileByte(v: Volume, ino: Inode, pos: nat)
    requires v.Valid() && ino.Valid() && Locatable(v, ino, pos / v.blockSize)
    ensures ByteFound(v, ino, pos) == FileByte(v, ino, pos)
  {
    hide BlockFound, BlockOf, Reachable, TablesInReach;
    BlockFoundIsBlockOf(v, ino, pos / v.blockSize);
  }

  /** A block that is a hole or can be read. */
  predicate Fetchable(v: Volume, ino: Inode, block: nat)
    requires v.Valid() && ino.Valid()
  {
    var b := BlockFound(v, ino, block);
    b == 0 || v.CanRead(v.BlockOffset(b), v.blockSize)
  }

  /** How many of the `count` blocks from `first` can be fetched before one fails. */
  function FetchRun(v: Volume, ino: Inode, first: nat, count: nat): (k: nat)
    requires v.Valid() && ino.Valid()
    ensures k <= count
    decreases count
  {
    if count == 0 || !Fetchable(v, ino, first) then 0 else 1 + FetchRun(v, ino, first + 1, count - 1)
  }

  /** The run is complete exactly when every block of the range can be fetched. */
  lemma {:induction false} FetchRunComplete(v: Volume, ino: Inode, first: nat, count: nat)
    requires v.Valid() && ino.Valid()
    ensures FetchRun(v, ino, first, count) == count <==>
            forall b :: first <= b < first + count ==> Fetchable(v, ino, b)
    decreases count
  {
    hide Fetchable, Volume.Valid, Inode.Valid;
    if count > 0 && Fetchable(v, ino, first) {
      FetchRunComplete(v, ino, first + 1, count - 1);
    }
  }

  function Min(x: nat, y: nat): (r: nat)
    ensures r <= x && r <= y && (r == x || r == y)
  {
    if x < y then x else y
  }

  datatype Outcome = TooBig | NoMemory | Got(n: nat)

  /** How a read of `len` bytes at `off` ends: cut at the end of the file, and at the first block that fails. */
  function ReadOutcome(v: Volume, ino: Inode, off: nat, len: nat): Outcome
    requires v.Valid() && ino.Valid()
  {
    if off >= ino.size then Got(0) else
    var n := Min(len, ino.size - off);
    var first, skip := BlockIndex(off, v.blockSize), Skip(off, v.blockSize);
    if n + skip + v.blockSize - 1 > SIZE_MAX then TooBig
    else if n + skip == 0 then NoMemory
    else
      var count := CeilDiv(n + skip, v.blockSize);
      var run := FetchRun(v, ino, first, count);
      Got(if run == count then n else if run == 0 then 0 else Min(run * v.blockSize - skip, n))
  }

  // ---------------------------------------------------------------- the code

  /** The bytes of a block as the reader delivers them. */
  function BlockBytes(v: Volume, b: Word): (s: seq<byte>)
    ensures |s| == v.blockSize
  {
    if b == 0 then seq<byte>(v.blockSize, _ => 0) else v.Bytes(v.BlockOffset(b), v.blockSize)
  }

  /** Blocks lie one after another in the file. */
  lemma BlockByBlock(v: Volume, ino: Inode, first: nat, i: nat)
    requires v.Valid() && ino.Valid()
    ensures BytesFound(v, ino, first * v.blockSize, i * v.blockSize + v.blockSize) ==
            BytesFound(v, ino, first * v.blockSize, i * v.blockSize) + BlockBytes(v, BlockFound(v, ino, first + i))
  {
    hide BlockFound, Volume.Valid, Inode.Valid;
    var size := v.blockSize;
    var l := BytesFound(v, ino, first * size, i * size + size);
    var r := BytesFound(v, ino, first * size, i * size) + BlockBytes(v, BlockFound(v, ino, first + i));
    forall k | 0 <= k < |l| ensures l[k] == r[k] {
      if k >= i * size {
        var j := k - i * size;
        assert first * size + k == (first + i) * size + j;
        DivMod(first + i, size, j);
        assert r[k] == BlockBytes(v, BlockFound(v, ino, first + i))[j];
      }
    }
  }

  lemma NextBlockFits(i: nat, count: nat, size: nat)
    requires i < count
    ensures (i + 1) * size == i * size + size <= count * size
  {
    MultipleIsLarge(size, count - i);
    assert size * (count - i) == count * size - i * size;
  }

  /** Fill one block of the buffer: zeros for a hole, else the block from the device. */
  method FetchBlock(v: Volume, ino: Inode, bbuf: array<byte>, at: nat, block: Word) returns (failed: bool)
    requires v.Valid() && ino.Valid() && at + v.blockSize <= bbuf.Length
    requires block < WORD_LIMIT
    modifies bbuf
    ensures failed <==> !Fetchable(v, ino, block)
    ensures bbuf[..at] == old(bbuf[..at])
    ensures !failed ==>
      bbuf[..at + v.blockSize] == old(bbuf[..at]) + BlockBytes(v, BlockFound(v, ino, block))
  {
    var size := v.blockSize;
    var found := GetBlock(v, ino, block);
    if found == 0 {
      forall j | at <= j < at + size {
        bbuf[j] := 0;
      }
      failed := false;
    } else {
      var off := v.BlockOffset(found);
      failed := Read(v, bbuf, at, off, size);
      if !failed {
        BytesOnDevice(v, off, size);
      }
    }
  }

  /** The part of a read that fills whole blocks: `bbuf` receives the blocks from `first` until one fails. */
  method FetchBlocks(v: Volume, ino: Inode, bbuf: array<byte>, first: nat, count: nat) returns (run: nat)
    requires v.Valid() && ino.Valid()
    requires bbuf.Length == count * v.blockSize < WORD_LIMIT && first + count <= WORD_LIMIT
    modifies bbuf
    ensures run == FetchRun(v, ino, first, count)
    ensures run * v.blockSize <= bbuf.Length
    ensures bbuf[..run * v.blockSize] == BytesFound(v, ino, first * v.blockSize, run * v.blockSize)
  {
    hide Fetchable, BytesFound, BlockFound, Volume.Valid, Inode.Valid;
    var i := 0;
    var at := 0;
    while i < count
      invariant i <= count && at == i * v.blockSize <= bbuf.Length
      invariant FetchRun(v, ino, first, count) == i + FetchRun(v, ino, first + i, count - i)
      invariant bbuf[..at] == BytesFound(v, ino, first * v.blockSize, at)
    {
      NextBlockFits(i, count, v.blockSize);
      var failed := FetchBlock(v, ino, bbuf, at, first + i);
      if failed {
        break;
      }
      BlockByBlock(v, ino, first, i);
      i := i + 1;
      at := at + v.blockSize;
    }
    return i;
  }

  lemma FewerBlocksFallShort(t: nat, size: nat, run: nat)
    requires size > 0 && run < CeilDiv(t, size)
    ensures run * size < t && (run > 0 ==> size <= run * size)
  {
    BlocksCover(t, size);
    NextBlockFits(run, CeilDiv(t, size), size);
    MultipleIsLarge(size, run);
  }

  /** The return value and the buffer that go with an outcome. */
  ghost predicate ReadResult(v: Volume, ino: Inode, o: Outcome, off: nat, r: int, before: seq<byte>, after: seq<byte>)
    requires v.Valid() && ino.Valid()
  {
    match o
    case TooBig => r == -E2BIG && after == before
    case NoMemory => r == -EMEM && after == before
    case Got(n) => n < WORD_LIMIT && r == AsSigned(n) && n <= |before|
                   && after == BytesFound(v, ino, off, n) + before[n..]
  }

  /** A read delivers the range up to where `ReadOutcome` says it stops, and nothing else. */
  method ReadInode(v: Volume, ino: Inode, buf: array<byte>, off: Word, len: Word) returns (r: int)
    requires v.Valid() && ino.Valid()
    requires off < ino.size ==> Min(len, ino.size - off) <= buf.Length
    modifies buf
    ensures ReadResult(v, ino, ReadOutcome(v, ino, off, len), off, r, old(buf[..]), buf[..])
  {
    ghost var before := buf[..];
    assert off >= ino.size ==> ReadResult(v, ino, ReadOutcome(v, ino, off, len), off, 0, before, before) by {
      if off >= ino.size { assert BytesFound(v, ino, off, 0) + before == before; }
    }
    if off < ino.size { CutAtEnd(v, ino, off, len); }
    hide *;
    if off >= ino.size {
      return 0;
    }
    var n := len;
    if n > ino.size - off {
      n := ino.size - off;
    }
    r := ReadRange(v, ino, buf, off, n);
  }

  lemma CutAtEnd(v: Volume, ino: Inode, off: Word, len: Word)
    requires v.Valid() && ino.Valid() && off < ino.size
    ensures var n := if len > ino.size - off then ino.size - off else len;
            n == Min(len, ino.size - off) && ReadOutcome(v, ino, off, n) == ReadOutcome(v, ino, off, len)
  {
    hide BlockIndex, Skip, CeilDiv, FetchRun;
  }

  /** The blocks of a range that fits 32 bits have numbers that do. */
  lemma FewBlocks(first: nat, skip: nat, count: nat, size: nat)
    requires size >= 2 && first * size + skip < WORD_LIMIT && count * size < WORD_LIMIT
    ensures first + count <= WORD_LIMIT
  {
    assert first * size == 2 * first + first * (size - 2) && count * size == 2 * count + count * (size - 2);
    assert first * (size - 2) >= 0 && count * (size - 2) >= 0;
  }

  /** How such a read ends. */
  lemma Uncut(v: Volume, ino: Inode, off: Word, n: Word)
    requires v.Valid() && ino.Valid() && off < ino.size && n <= ino.size - off
    ensures var first, skip := BlockIndex(off, v.blockSize), Skip(off, v.blockSize);
            ReadOutcome(v, ino, off, n) ==
            if n + skip + v.blockSize - 1 > SIZE_MAX then TooBig
            else if n + skip == 0 then NoMemory
            else
              var count := CeilDiv(n + skip, v.blockSize);
              var run := FetchRun(v, ino, first, count);
              Got(if run == count then n else if run == 0 then 0 else Min(run * v.blockSize - skip, n))
  {
    hide BlockIndex, Skip, CeilDiv, FetchRun;
  }

  /** The same once the range has been cut at the end of the file. */
  method ReadRange(v: Volume, ino: Inode, buf: array<byte>, off: Word, n: Word) returns (r: int)
    requires v.Valid() && ino.Valid() && off < ino.size && n <= ino.size - off && n <= buf.Length
    modifies buf
    ensures ReadResult(v, ino, ReadOutcome(v, ino, off, n), off, r, old(buf[..]), buf[..])
  {
    hide Volume.Valid, Inode.Valid, BytesFound, FetchRun, CeilDiv, AsSigned, BlockIndex, Skip, ReadOutcome, Min,
         Volume.Pointers;
    ValidSizes(v);
    Uncut(v, ino, off, n);
    var size := v.blockSize;
    var first, skip := BlockIndex(off, size), Skip(off, size);
    OffsetParts(off, size);
    if n > SIZE_MAX - skip - (size - 1) {
      return -E2BIG;
    }
    var count, bytes := BlocksNeeded(n, skip, size);
    if bytes == 0 {
      return -EMEM;
    }
    FewBlocks(first, skip, count, size);
    var got := Deliver(v, ino, buf, first, skip, count, n);
    r := AsSigned(got);
  }

  /** Fetch the blocks into a buffer of their own and copy out the bytes asked for. */
  method Deliver(v: Volume, ino: Inode, buf: array<byte>, first: nat, skip: nat, count: nat, n: Word)
    returns (got: Word)
    requires v.Valid() && ino.Valid() && n <= buf.Length
    requires skip < v.blockSize && count == CeilDiv(n + skip, v.blockSize)
    requires skip + n <= count * v.blockSize < WORD_LIMIT && first + count <= WORD_LIMIT
    modifies buf
    ensures var run := FetchRun(v, ino, first, count);
            got == if run == count then n else if run == 0 then 0 else Min(run * v.blockSize - skip, n)
    ensures got <= buf.Length
    ensures buf[..] == BytesFound(v, ino, first * v.blockSize + skip, got) + old(buf[got..])
  {
    hide Volume.Valid, Inode.Valid, BytesFound, FetchRun, CeilDiv;
    var bbuf := new byte[count * v.blockSize];
    var run := FetchBlocks(v, ino, bbuf, first, count);
    got := n;
    if run < count {
      FewerBlocksFallShort(n + skip, v.blockSize, run);
      got := if run < 1 then 0 else Min(run * v.blockSize - skip, n);
    }
    PartOfFile(v, ino, bbuf[..], first * v.blockSize, run * v.blockSize, skip, got);
    CopyOut(buf, bbuf, skip, got, BytesFound(v, ino, first * v.blockSize + skip, got));
  }

  method CopyOut(buf: array<byte>, src: array<byte>, from: nat, n: nat, ghost part: seq<byte>)
    requires buf != src && n <= buf.Length && from + n <= src.Length && src[from..from + n] == part
    modifies buf
    ensures buf[..] == part + old(buf[n..])
  {
    Copy(buf, 0, src, from, n);
    assert old(buf[..0]) == [];
  }

  lemma PartOfFile(v: Volume, ino: Inode, buf: seq<byte>, from: nat, total: nat, skip: nat, n: nat)
    requires v.Valid() && ino.Valid()
    requires total <= |buf| && buf[..total] == BytesFound(v, ino, from, total)
    requires n == 0 || skip + n <= total
    requires skip + n <= |buf|
    ensures buf[skip..skip + n] == BytesFound(v, ino, from + skip, n)
  {
    var p := BytesFound(v, ino, from + skip, n);
    forall k | 0 <= k < n ensures buf[skip + k] == p[k] {
      assert buf[..total][skip + k] == buf[skip + k];
    }
  }

  /** Every block of a byte range can be found, where it is, and fetched. */
  predicate RangeIntact(v: Volume, ino: Inode, off: nat, n: nat)
    requires v.Valid() && ino.Valid()
  {
    var first, skip := BlockIndex(off, v.blockSize), Skip(off, v.blockSize);
    forall b :: first <= b < first + CeilDiv(n + skip, v.blockSize) ==>
      Locatable(v, ino, b) && Fetchable(v, ino, b)
  }

  /** A read of a non-empty intact range returns exactly the bytes of the file, cut at its end. */
  lemma CompleteRead(v: Volume, ino: Inode, off: nat, len: nat)
    requires v.Valid() && ino.Valid() && off < ino.size && len > 0
    requires Min(len, ino.size - off) + Skip(off, v.blockSize) + v.blockSize - 1 <= SIZE_MAX
    requires RangeIntact(v, ino, off, Min(len, ino.size - off))
    ensures var n := Min(len, ino.size - off);
            && ReadOutcome(v, ino, off, len) == Got(n)
            && BytesFound(v, ino, off, n) == FileBytes(v, ino, off, n)
  {
    hide Locatable, Fetchable, BytesFound, FileBytes, FetchRun, CeilDiv, BlockIndex, Skip;
    var n := Min(len, ino.size - off);
    var first, skip, size := BlockIndex(off, v.blockSize), Skip(off, v.blockSize), v.blockSize;
    var count := CeilDiv(n + skip, size);
    FetchRunComplete(v, ino, first, count);
    BlocksCover(n + skip, size);
    forall pos: nat | off <= pos < off + n ensures Locatable(v, ino, pos / size) {
      InRange(off, n, pos, size);
    }
    BytesFoundAreFileBytes(v, ino, off, n);
  }

  /** The results that are no counts: nothing past the end, -3 for a length that would wrap, and -4 for a read of no
      bytes at the start of a block. */
  lemma ReadRefused(v: Volume, ino: Inode, off: nat, len: nat, r: int, before: seq<byte>, after: seq<byte>)
    requires v.Valid() && ino.Valid()
    requires ReadResult(v, ino, ReadOutcome(v, ino, off, len), off, r, before, after)
    ensures off >= ino.size ==> r == 0 && after == before
    ensures off < ino.size ==>
      var n := if len < ino.size - off then len else ino.size - off;
      && (r == -3 <==> n + off % v.blockSize + v.blockSize > 0x1_0000_0000)
      && (r == -4 <==> n == 0 && off % v.blockSize == 0)
      && (r == -3 || r == -4 ==> after == before)
  {
    hide FetchRun, CeilDiv;
  }

  /** What the caller of such a read gets: the bytes, and their number unless it needs the sign bit. */
  lemma IntactReadReturns(v: Volume, ino: Inode, off: nat, len: nat, r: int, before: seq<byte>, after: seq<byte>)
    requires v.Valid() && ino.Valid() && off < ino.size && len > 0
    requires Min(len, ino.size - off) + Skip(off, v.blockSize) + v.blockSize - 1 <= SIZE_MAX
    requires RangeIntact(v, ino, off, Min(len, ino.size - off))
    requires ReadResult(v, ino, ReadOutcome(v, ino, off, len), off, r, before, after)
    ensures var n := Min(len, ino.size - off);
            && n <= |before| && after == FileBytes(v, ino, off, n) + before[n..]
            && (r == n <==> n < 0x8000_0000) && (r < 0 <==> n >= 0x8000_0000)
  {
    hide RangeIntact, ReadOutcome, FileBytes, BytesFound, Skip;
    CompleteRead(v, ino, off, len);
  }

  /** A volume of one-byte contents that ends above 2^32: the reader takes the block at 4 GiB and 1 KiB for the
      one at 1 KiB. */
  lemma FarBlockMisread()
    ensures var data := seq<byte>(0x1_0000_0800, (i: nat) => if i == 0x400 then 1 else 0);
            var v := Volume(Device(0x200, data, (lba, count) => true), 0, 0x400, 1, 128, (group: nat) => 0);
            var ino := Inode(1, seq<Word>(15, (i: nat) => 0x40_0001));
            && v.Valid() && ino.Valid()
            && ReadOutcome(v, ino, 0, 1) == Got(1)
            && BytesFound(v, ino, 0, 1) == [1] && FileBytes(v, ino, 0, 1) == [0]
  {
    var data := seq<byte>(0x1_0000_0800, (i: nat) => if i == 0x400 then 1 else 0);
    var v := Volume(Device(0x200, data, (lba, count) => true), 0, 0x400, 1, 128, (group: nat) => 0);
    var ino := Inode(1, seq<Word>(15, (i: nat) => 0x40_0001));
    assert v.Address(0x40_0001) == 0x1_0000_0400 && v.BlockOffset(0x40_0001) == 0x400;
    assert BlockFound(v, ino, 0) == BlockOf(v, ino, 0) == 0x40_0001;
    assert v.Spread(0x400, 0x400) == 2;
    assert Fetchable(v, ino, 0);
    assert FetchRun(v, ino, 0, 1) == 1;
    assert BytesFound(v, ino, 0, 1)[0] == v.ByteAt(0x400);
    assert FileBytes(v, ino, 0, 1)[0] == v.ByteAt(0x1_0000_0400);
  }

  /** A device that fails to deliver a pointer table: the read succeeds and returns zeros in place of the file. */
  lemma UnreadableTableMisread()
    ensures var data := seq<byte>(0x1000, (i: nat) => if i == 0x400 then 2 else if i == 0x800 then 9 else 0);
            var v := Volume(Device(0x200, data, (lba, count) => false), 0, 0x400, 1, 128, (group: nat) => 0);
            var ino := Inode(0x3001, seq<Word>(15, (i: nat) => 1));
            && v.Valid() && ino.Valid()
            && ReadOutcome(v, ino, 0x3000, 1) == Got(1)
            && BytesFound(v, ino, 0x3000, 1) == [0] && FileBytes(v, ino, 0x3000, 1) == [9]
  {
    var data := seq<byte>(0x1000, (i: nat) => if i == 0x400 then 2 else if i == 0x800 then 9 else 0);
    var v := Volume(Device(0x200, data, (lba, count) => false), 0, 0x400, 1, 128, (group: nat) => 0);
    var ino := Inode(0x3001, seq<Word>(15, (i: nat) => 1));
    FirstIndirect(256);
    assert TableEntry(v, 1, 0) == 2 && Follow(v, 1, [0]) == 2;
    assert BlockFound(v, ino, 12) == 0 && BlockOf(v, ino, 12) == 2;
    assert FetchRun(v, ino, 12, 1) == 1;
    assert BytesFound(v, ino, 0x3000, 1)[0] == 0;
    assert FileBytes(v, ino, 0x3000, 1)[0] == v.ByteAt(0x800);
  }

  lemma QuotientShift(q: nat, x: nat, size: nat)
    requires size > 0
    ensures (q * size + x) / size == q + x / size
  {
    assert x == x / size * size + x % size;
    assert (q + x / size) * size == q * size + x / size * size;
    DivMod(q + x / size, size, x % size);
  }

  lemma InRange(off: nat, n: nat, pos: nat, size: nat)
    requires size > 0 && off <= pos < off + n
    ensures BlockIndex(off, size) <= pos / size < BlockIndex(off, size) + CeilDiv(n + Skip(off, size), size)
  {
    var first, skip := off / size, off % size;
    BlocksCover(n + skip, size);
    var count := CeilDiv(n + skip, size);
    assert off == first * size + skip;
    QuotientShift(first, pos - first * size, size);
    QuotientBelow(pos - first * size, size, count);
  }
}
