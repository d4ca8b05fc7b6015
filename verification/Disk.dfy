/** Bytes, little-endian fields, the block device behind the file system and byte-range reads on it. */
module Disk {
  import opened Words
  import opened Arithmetic

  const SIZE_MAX := 0xFFFF_FFFF

  function Le16(s: seq<byte>, at: nat): nat
    requires at + 2 <= |s|
  {
    var b0: nat, b1: nat := s[at], s[at + 1];
    b0 + 0x100 * b1
  }

  function Le32(s: seq<byte>, at: nat): Word
    requires at + 4 <= |s|
  {
    var b0: nat, b1: nat, b2: nat, b3: nat := s[at], s[at + 1], s[at + 2], s[at + 3];
    b0 + 0x100 * b1 + 0x1_0000 * b2 + 0x100_0000 * b3
  }

  // The same bytes written down.

  function Bytes16(n: nat): (s: seq<byte>)
    requires n < 0x1_0000
    ensures |s| == 2
  {
    [n % 0x100, n / 0x100]
  }

  function Bytes32(n: Word): (s: seq<byte>)
    ensures |s| == 4
  {
    [n % 0x100, n / 0x100 % 0x100, n / 0x1_0000 % 0x100, n / 0x100_0000]
  }

  lemma BytesOfWord(w: Word)
    ensures w % 0x100 + 0x100 * (w / 0x100 % 0x100) + 0x1_0000 * (w / 0x1_0000 % 0x100)
            + 0x100_0000 * (w / 0x100_0000) == w
  {
  }

  lemma Le32OfBytes(s: seq<byte>, at: nat, n: Word)
    requires at + 4 <= |s| && s[at..at + 4] == Bytes32(n)
    ensures Le32(s, at) == n
  {
    BytesOfWord(n);
    var t := s[at..at + 4];
    assert s[at] == t[0] && s[at + 1] == t[1] && s[at + 2] == t[2] && s[at + 3] == t[3];
  }

  /** A device is its contents and the set of transfers that succeed; a transfer past the end never does. */
  datatype Device = Device(blockSize: nat, data: seq<byte>, ready: (nat, nat) -> bool)
  {
    predicate Serves(lba: nat, count: nat) {
      (lba + count) * blockSize <= |data| && ready(lba, count)
    }
  }

  /** The parts of a mounted volume that the reader uses; `inodeTable` is the table start of each group. */
  datatype Volume = Volume(dev: Device, start: Word, blockSize: nat, inodesPerGroup: nat, inodeSize: nat,
                           inodeTable: nat -> Word)
  {
    predicate Valid() {
      && 0 < dev.blockSize <= 0x1_0000
      && blockSize in {0x400, 0x800, 0x1000, 0x2000, 0x4000, 0x8000, 0x1_0000}
      && 0 < inodesPerGroup && 100 <= inodeSize <= 0x1_0000
    }

    /** Byte address of a block. */
    function Address(block: nat): nat { start + block * blockSize }

    /** What the code computes for it, in 32-bit arithmetic. */
    function BlockOffset(block: nat): Word { Address(block) % WORD_LIMIT }

    /** The block starts below 2^32: the code computes its address. */
    predicate InReach(block: nat) { Address(block) < WORD_LIMIT }

    /** Number of block pointers in one block. */
    function Pointers(): nat { blockSize / 4 }

    /** Device blocks touched by the byte range `[off, off + len)`. */
    function Spread(off: nat, len: nat): nat
      requires dev.blockSize > 0
    {
      CeilDiv(Skip(off, dev.blockSize) + len, dev.blockSize)
    }

    predicate CanRead(off: nat, len: nat)
      requires dev.blockSize > 0
    {
      Spread(off, len) > 0 && dev.Serves(BlockIndex(off, dev.blockSize), Spread(off, len))
    }

    /** A byte of the volume's device; zero past its end. */
    function ByteAt(pos: nat): byte {
      if pos < |dev.data| then dev.data[pos] else 0
    }

    function Bytes(off: nat, len: nat): (s: seq<byte>)
      ensures |s| == len
      ensures forall i {:trigger s[i]} :: 0 <= i < len ==> s[i] == ByteAt(off + i)
    {
      seq<byte>(len, (i: nat) => ByteAt(off + i))
    }

    /** The same volume with other contents. */
    function Holding(data: seq<byte>): Volume { this.(dev := dev.(data := data)) }
  }

  /** Reading at an address reduced to 32 bits gives the right bytes, whatever the device holds, exactly when the
      reduction changes nothing. */
  lemma WrapMisreads(v: Volume, addr: nat, len: nat)
    requires v.Valid() && len > 0 && v.CanRead(addr % WORD_LIMIT, len)
    ensures addr < WORD_LIMIT <==>
            forall data: seq<byte> :: |data| == |v.dev.data| ==>
              v.Holding(data).Bytes(addr % WORD_LIMIT, len) == v.Holding(data).Bytes(addr, len)
  {
    var off := addr % WORD_LIMIT;
    ReadPlan(v, off, len);
    if addr >= WORD_LIMIT {
      var data := seq<byte>(|v.dev.data|, (i: nat) => if i == off then 1 else 0);
      var w := v.Holding(data);
      assert w.Bytes(off, len)[0] == w.ByteAt(off + 0) == 1;
      assert w.Bytes(addr, len)[0] == w.ByteAt(addr + 0) == 0;
    }
  }

  /** The blocks of a volume lie one after another from its start. */
  lemma BlocksFollow(v: Volume, block: nat)
    ensures v.Address(0) == v.start && v.Address(block + 1) == v.Address(block) + v.blockSize
    ensures v.BlockOffset(block) == v.Address(block) % 0x1_0000_0000
  {
  }

  lemma BytesOnDevice(v: Volume, off: nat, len: nat)
    requires off + len <= |v.dev.data|
    ensures v.Bytes(off, len) == v.dev.data[off..off + len]
  {
    forall i | 0 <= i < len ensures v.Bytes(off, len)[i] == v.dev.data[off..off + len][i] {
      assert v.ByteAt(off + i) == v.dev.data[off + i];
    }
  }

  /** The block of `size` bytes that an offset lies in, and its place there. */
  function BlockIndex(off: nat, size: nat): nat
    requires size > 0
  {
    off / size
  }

  function Skip(off: nat, size: nat): nat
    requires size > 0
  {
    off % size
  }

  lemma OffsetParts(off: nat, size: nat)
    requires size > 0
    ensures off == BlockIndex(off, size) * size + Skip(off, size)
    ensures Skip(off, size) < size && BlockIndex(off, size) <= off
  {
    assert off == size * (off / size) + off % size;
    MultipleIsLarge(off / size, size);
  }

  /** Blocks of `size` bytes needed for `t` bytes. */
  function CeilDiv(t: nat, size: nat): nat
    requires size > 0
  {
    (t + size - 1) / size
  }

  /** The blocks needed for `t` bytes hold them with less than a block to spare. */
  lemma BlocksCover(t: nat, size: nat)
    requires size > 0
    ensures var count := CeilDiv(t, size);
            t <= count * size <= t + size - 1 && (count == 0 <==> t == 0)
  {
    var y := t + size - 1;
    var count := y / size;
    assert y == size * count + y % size;
    MultipleIsLarge(size, count);
  }

  /** Sizes of the blocks to fetch, in 32-bit arithmetic that does not wrap. */
  method BlocksNeeded(n: nat, skip: nat, size: nat) returns (count: nat, bytes: nat)
    requires size > 0 && n + skip + size - 1 <= SIZE_MAX
    ensures count == CeilDiv(n + skip, size) <= n + skip + size - 1
    ensures bytes == count * size < WORD_LIMIT && n + skip <= bytes
    ensures bytes == 0 <==> n + skip == 0
  {
    count := (n + skip + size - 1) % WORD_LIMIT / size;
    BlocksCover(n + skip, size);
    MultipleIsLarge(count, size);
    bytes := count * size % WORD_LIMIT;
  }

  /** The sum at the head of `read` does not exceed 32 bits. */
  predicate Fits(v: Volume, off: Word, len: nat)
    requires v.dev.blockSize > 0
  {
    Skip(off, v.dev.blockSize) + len + v.dev.blockSize - 1 < WORD_LIMIT
  }

  /** Only then does the transfer computed from it cover the bytes asked for. */
  lemma FitsIsNeeded(v: Volume, off: Word, len: Word)
    requires v.Valid()
    ensures var b := v.dev.blockSize;
            var t := Skip(off, b) + len;
            t <= (t + b - 1) % WORD_LIMIT / b * b <==> Fits(v, off, len)
  {
    var b := v.dev.blockSize;
    var t := Skip(off, b) + len;
    BlocksCover(t, b);
    if !Fits(v, off, len) {
      var sum := t + b - 1 - WORD_LIMIT;
      assert sum == b * (sum / b) + sum % b;
    }
  }

  /** The transfer that serves a byte range covers it, and ends on the device if it can be served. */
  lemma ReadPlan(v: Volume, off: Word, len: nat)
    requires v.Valid()
    ensures var b, count := v.dev.blockSize, v.Spread(off, len);
            var lba, offset := BlockIndex(off, b), Skip(off, b);
            && off == lba * b + offset && offset < b
            && offset + len <= count * b
            && count == CeilDiv(offset + len, b)
            && (v.CanRead(off, len) <==> count > 0 && v.dev.Serves(lba, count))
            && (v.CanRead(off, len) ==> off + len <= |v.dev.data|)
  {
    var b, count := v.dev.blockSize, v.Spread(off, len);
    OffsetParts(off, b);
    BlocksCover(Skip(off, b) + len, b);
    assert (off / b + count) * b == off / b * b + count * b;
  }

  ghost predicate IsTransfer(d: Device, buf: seq<byte>, from: nat, n: nat) {
    n <= |buf| && from + n <= |d.data| && buf[..n] == d.data[from..from + n]
  }

  lemma PartOfTransfer(d: Device, buf: seq<byte>, from: nat, n: nat, offset: nat, len: nat)
    requires IsTransfer(d, buf, from, n) && offset + len <= n
    ensures buf[offset..offset + len] == d.data[from + offset..from + offset + len]
  {
    forall i | offset <= i < offset + len ensures buf[i] == d.data[from + i] {
      assert buf[..n][i] == d.data[from..from + n][i];
    }
  }

  /** `dev->ops->read`: one transfer of whole device blocks. */
  method DeviceRead(d: Device, buf: array<byte>, lba: nat, count: nat) returns (failed: bool)
    requires count * d.blockSize <= buf.Length
    modifies buf
    ensures failed <==> !d.Serves(lba, count)
    ensures !failed ==> IsTransfer(d, buf[..], lba * d.blockSize, count * d.blockSize)
  {
    if !d.Serves(lba, count) {
      return true;
    }
    assert (lba + count) * d.blockSize == lba * d.blockSize + count * d.blockSize;
    forall i | 0 <= i < count * d.blockSize {
      buf[i] := d.data[lba * d.blockSize + i];
    }
    return false;
  }

  /** Copy `[off, off + len)` of the device to `buf[at..]`; nothing is written on failure. A range of no
      bytes at a block boundary needs a buffer of no bytes, which the allocator refuses. */
  method Read(v: Volume, buf: array<byte>, at: nat, off: Word, len: nat) returns (failed: bool)
    requires v.Valid() && at + len <= buf.Length
    requires Fits(v, off, len)
    modifies buf
    ensures failed <==> !v.CanRead(off, len)
    ensures !failed ==> off + len <= |v.dev.data|
    ensures !failed ==> buf[..] == old(buf[..at]) + v.dev.data[off..off + len] + old(buf[at + len..])
    ensures failed ==> buf[..] == old(buf[..])
  {
    var offset, lba, count, size := Plan(v, off, len);
    if size == 0 {
      return true;
    }
    var dbuf := new byte[size];
    failed := DeviceRead(v.dev, dbuf, lba, count);
    if failed {
      return;
    }
    PartOfTransfer(v.dev, dbuf[..], lba * v.dev.blockSize, size, offset, len);
    Copy(buf, at, dbuf, offset, len);
  }

  /** The 32-bit arithmetic at the head of `read`. */
  method Plan(v: Volume, off: Word, len: nat) returns (offset: nat, lba: nat, count: nat, size: nat)
    requires v.Valid() && Fits(v, off, len)
    ensures size == count * v.dev.blockSize && off == lba * v.dev.blockSize + offset && offset + len <= size
    ensures v.CanRead(off, len) <==> size > 0 && v.dev.Serves(lba, count)
    ensures v.CanRead(off, len) ==> off + len <= |v.dev.data|
  {
    var b := v.dev.blockSize;
    ReadPlan(v, off, len);
    hide CeilDiv, BlockIndex, Skip, Volume.Spread, Volume.CanRead, Device.Serves;
    offset, lba := Skip(off, b), BlockIndex(off, b);
    count, size := BlocksNeeded(offset, len, b);
  }

  /** `memcpy` between distinct buffers. */
  method Copy(dst: array<byte>, at: nat, src: array<byte>, from: nat, len: nat)
    requires at + len <= dst.Length && from + len <= src.Length && dst != src
    modifies dst
    ensures dst[..] == old(dst[..at]) + src[from..from + len] + old(dst[at + len..])
  {
    forall i | 0 <= i < len {
      dst[at + i] := src[from + i];
    }
  }
}
