/** From a block of a file to a block of the volume: direct pointers and up to three levels of pointer tables. */
module BlockMap {
  import opened Words
  import opened Arithmetic
  import opened Disk

  const DIRECT := 12

  // ---------------------------------------------------------------- base-p digits

  function Pow(p: nat, k: nat): nat {
    if k == 0 then 1 else p * Pow(p, k - 1)
  }

  /** The `k` base-`p` digits of `n`, most significant first. */
  function Digits(n: nat, p: nat, k: nat): (ds: seq<nat>)
    requires p > 0
    ensures |ds| == k
  {
    if k == 0 then [] else
      PowPositive(p, k - 1);
      [n / Pow(p, k - 1)] + Digits(n % Pow(p, k - 1), p, k - 1)
  }

  function Val(ds: seq<nat>, p: nat): nat {
    if ds == [] then 0 else ds[0] * Pow(p, |ds| - 1) + Val(ds[1..], p)
  }

  predicate Below(ds: seq<nat>, p: nat) {
    forall i :: 0 <= i < |ds| ==> ds[i] < p
  }

  lemma {:induction false} PowPositive(p: nat, k: nat)
    requires p > 0
    ensures Pow(p, k) > 0
  {
    if k > 0 {
      PowPositive(p, k - 1);
      MultipleIsLarge(p, Pow(p, k - 1));
    }
  }

  lemma PowSmall(p: nat)
    ensures Pow(p, 0) == 1 && Pow(p, 1) == p && Pow(p, 2) == p * p && Pow(p, 3) == p * p * p
  {
    assert Pow(p, 1) == p * Pow(p, 0);
    assert Pow(p, 2) == p * Pow(p, 1);
    assert Pow(p, 3) == p * Pow(p, 2) == p * (p * p) == p * p * p;
  }

  lemma QuotientBelow(n: nat, q: nat, p: nat)
    requires q > 0
    ensures n == n / q * q + n % q
    ensures n / q < p <==> n < p * q
  {
    var x, r := n / q, n % q;
    assert n == q * x + r;
    MultipleIsLarge(q, p - x);
    MultipleIsLarge(q, x - p);
    assert q * (p - x) == p * q - q * x;
    assert q * (x - p) == q * x - p * q;
  }

  lemma ScaledBelow(d: nat, q: nat, r: nat, p: nat)
    requires d < p && r < q
    ensures d * q + r < p * q
  {
    MultipleIsLarge(q, p - d);
    assert q * (p - d) == p * q - d * q;
  }

  lemma ValCons(d: nat, ds: seq<nat>, p: nat)
    ensures Val([d] + ds, p) == d * Pow(p, |ds|) + Val(ds, p)
  {
    assert ([d] + ds)[1..] == ds;
  }

  /** Quotient and remainder, without the division. */
  lemma Split(n: nat, q: nat, p: nat) returns (d: nat, r: nat)
    requires q > 0 && n < p * q
    ensures d == n / q && r == n % q
    ensures n == d * q + r && d < p && r < q
  {
    QuotientBelow(n, q, p);
    d, r := n / q, n % q;
  }

  lemma DigitsCons(n: nat, p: nat, k: nat)
    requires p > 0 && k > 0
    ensures Pow(p, k - 1) > 0 && Pow(p, k) == p * Pow(p, k - 1)
    ensures Digits(n, p, k) == [n / Pow(p, k - 1)] + Digits(n % Pow(p, k - 1), p, k - 1)
  {
    PowPositive(p, k - 1);
  }

  lemma {:induction false} DigitsBelow(n: nat, p: nat, k: nat)
    requires p > 0 && n < Pow(p, k)
    ensures Below(Digits(n, p, k), p)
    ensures Val(Digits(n, p, k), p) == n
  {
    assert k == 0 ==> n == 0 && Digits(n, p, k) == [];
    hide Digits, Pow;
    if k > 0 {
      var q := Pow(p, k - 1);
      DigitsCons(n, p, k);
      var d, r := Split(n, q, p);
      DigitsBelow(r, p, k - 1);
      ValCons(d, Digits(r, p, k - 1), p);
    }
  }

  lemma {:induction false} DigitsOfVal(ds: seq<nat>, p: nat)
    requires p > 0 && Below(ds, p)
    ensures Val(ds, p) < Pow(p, |ds|)
    ensures Digits(Val(ds, p), p, |ds|) == ds
  {
    if ds != [] {
      var q, r := Pow(p, |ds| - 1), Val(ds[1..], p);
      DigitsOfVal(ds[1..], p);
      DivMod(ds[0], q, r);
      ScaledBelow(ds[0], q, r, p);
    }
  }

  // ---------------------------------------------------------------- addresses

  datatype Address = Direct(slot: nat) | Indirect(path: seq<nat>) | Beyond

  predicate WellFormed(a: Address, p: nat) {
    match a
    case Direct(slot) => slot < DIRECT
    case Indirect(path) => 1 <= |path| <= 3 && Below(path, p)
    case Beyond => false
  }

  /** Blocks a file can have. */
  function Capacity(p: nat): nat {
    DIRECT + p + p * p + p * p * p
  }

  function AddressOf(block: nat, p: nat): Address
    requires p > 0
  {
    if block < DIRECT then Direct(block)
    else if block - DIRECT < p then Indirect(Digits(block - DIRECT, p, 1))
    else if block - DIRECT - p < p * p then Indirect(Digits(block - DIRECT - p, p, 2))
    else if block - DIRECT - p - p * p < p * p * p then Indirect(Digits(block - DIRECT - p - p * p, p, 3))
    else Beyond
  }

  function IndexOf(a: Address, p: nat): nat {
    match a
    case Direct(slot) => slot
    case Indirect(path) =>
      DIRECT + (if |path| >= 2 then p else 0) + (if |path| >= 3 then p * p else 0) + Val(path, p)
    case Beyond => Capacity(p)
  }

  /** Every block of a file has exactly one address, every well-formed address is that of one block, and every
      digit is a valid table index: the range checks of the table walk never fire from the block lookup. */
  lemma AddressingIsABijection(block: nat, p: nat)
    requires p > 0
    ensures block < Capacity(p) <==> WellFormed(AddressOf(block, p), p)
    ensures block < Capacity(p) ==> IndexOf(AddressOf(block, p), p) == block
  {
    PowSmall(p);
    if block < DIRECT {
    } else if block - DIRECT < p {
      DigitsBelow(block - DIRECT, p, 1);
    } else if block - DIRECT - p < p * p {
      DigitsBelow(block - DIRECT - p, p, 2);
    } else if block - DIRECT - p - p * p < p * p * p {
      DigitsBelow(block - DIRECT - p - p * p, p, 3);
    }
  }

  lemma AddressesAreReached(a: Address, p: nat)
    requires p > 0 && WellFormed(a, p)
    ensures IndexOf(a, p) < Capacity(p)
    ensures AddressOf(IndexOf(a, p), p) == a
  {
    PowSmall(p);
    if a.Indirect? {
      DigitsOfVal(a.path, p);
    }
  }

  // ---------------------------------------------------------------- following pointers

  datatype Inode = Inode(size: Word, block: seq<Word>)
  {
    predicate Valid() { |block| == 15 }
  }

  /** Entry `j` of the pointer table stored in a block. */
  function TableEntry(v: Volume, table: Word, j: nat): Word
    requires j < v.Pointers()
  {
    Le32(v.Bytes(v.Address(table), v.blockSize), 4 * j)
  }

  /** The same where the reader looks for it. */
  function EntryFound(v: Volume, table: Word, j: nat): Word
    requires j < v.Pointers()
  {
    Le32(v.Bytes(v.BlockOffset(table), v.blockSize), 4 * j)
  }

  lemma EntryIsFound(v: Volume, table: Word, j: nat)
    requires j < v.Pointers() && v.InReach(table)
    ensures EntryFound(v, table, j) == TableEntry(v, table, j)
  {
  }

  /** What the tables on disk say: a zero pointer anywhere on the path makes a hole. */
  function Follow(v: Volume, ptr: Word, path: seq<nat>): Word
    requires Below(path, v.Pointers())
    decreases |path|
  {
    if path == [] || ptr == 0 then ptr else Follow(v, TableEntry(v, ptr, path[0]), path[1..])
  }

  predicate TableReadable(v: Volume, table: Word)
    requires v.Valid()
  {
    v.CanRead(v.BlockOffset(table), v.blockSize)
  }

  /** What the reader finds: a table it cannot read counts as a hole, and addresses are reduced to 32 bits. */
  function FollowIo(v: Volume, ptr: Word, path: seq<nat>): Word
    requires v.Valid() && Below(path, v.Pointers())
    decreases |path|
  {
    if path == [] || ptr == 0 then ptr
    else if !TableReadable(v, ptr) then 0
    else FollowIo(v, EntryFound(v, ptr, path[0]), path[1..])
  }

  /** Every table on the path can be read, where it is. */
  predicate PathReadable(v: Volume, ptr: Word, path: seq<nat>)
    requires v.Valid() && Below(path, v.Pointers())
    decreases |path|
  {
    path == [] || ptr == 0 ||
    (TableReadable(v, ptr) && v.InReach(ptr) && PathReadable(v, TableEntry(v, ptr, path[0]), path[1..]))
  }

  /** No table on the path is read at an address that has wrapped. */
  predicate PathInReach(v: Volume, ptr: Word, path: seq<nat>)
    requires v.Valid() && Below(path, v.Pointers())
    decreases |path|
  {
    path == [] || ptr == 0 || !TableReadable(v, ptr) ||
    (v.InReach(ptr) && PathInReach(v, TableEntry(v, ptr, path[0]), path[1..]))
  }

  /** The reader finds what the tables say unless an unreadable table hides a block that is there, or a table is
      read at an address that has wrapped. */
  lemma {:induction false} FollowIoIsFollow(v: Volume, ptr: Word, path: seq<nat>)
    requires v.Valid() && Below(path, v.Pointers())
    ensures PathReadable(v, ptr, path) ==> PathInReach(v, ptr, path)
    ensures PathInReach(v, ptr, path) ==>
              (FollowIo(v, ptr, path) == Follow(v, ptr, path)
               <==> PathReadable(v, ptr, path) || Follow(v, ptr, path) == 0)
    decreases |path|
  {
    hide TableReadable, TableEntry, EntryFound, Volume.InReach, Volume.Valid, Volume.Pointers;
    if path != [] && ptr != 0 && TableReadable(v, ptr) && v.InReach(ptr) {
      EntryIsFound(v, ptr, path[0]);
      FollowIoIsFollow(v, TableEntry(v, ptr, path[0]), path[1..]);
    }
  }

  lemma PathsAreBelow(block: nat, p: nat)
    requires p > 0
    ensures AddressOf(block, p).Direct? ==> AddressOf(block, p).slot < DIRECT
    ensures AddressOf(block, p).Indirect? ==>
              1 <= |AddressOf(block, p).path| <= 3 && Below(AddressOf(block, p).path, p)
  {
    AddressingIsABijection(block, p);
  }

  /** The block of the volume that holds a block of the file; 0 for a hole. */
  function BlockOf(v: Volume, ino: Inode, block: nat): Word
    requires v.Valid() && ino.Valid()
  {
    var p := v.Pointers();
    PathsAreBelow(block, p);
    match AddressOf(block, p)
    case Direct(slot) => ino.block[slot]
    case Indirect(path) => Follow(v, ino.block[11 + |path|], path)
    case Beyond => 0
  }

  /** The same as far as the reader can tell: unreadable tables hide their blocks, addresses are reduced to 32
      bits, and from block size 8192 on the product of three pointer counts wraps to zero and hides every triply
      indirect block. */
  function BlockFound(v: Volume, ino: Inode, block: nat): Word
    requires v.Valid() && ino.Valid()
  {
    var p := v.Pointers();
    PathsAreBelow(block, p);
    match AddressOf(block, p)
    case Direct(slot) => ino.block[slot]
    case Indirect(path) => if |path| == 3 && p > 1024 then 0 else FollowIo(v, ino.block[11 + |path|], path)
    case Beyond => 0
  }

  /** The lookup of a block reads every table it needs, where it is. */
  predicate Reachable(v: Volume, ino: Inode, block: nat)
    requires v.Valid() && ino.Valid()
  {
    var p := v.Pointers();
    PathsAreBelow(block, p);
    match AddressOf(block, p)
    case Indirect(path) => !(|path| == 3 && p > 1024) && PathReadable(v, ino.block[11 + |path|], path)
    case _ => true
  }

  /** The lookup of a block reads no table at an address that has wrapped. */
  predicate TablesInReach(v: Volume, ino: Inode, block: nat)
    requires v.Valid() && ino.Valid()
  {
    var p := v.Pointers();
    PathsAreBelow(block, p);
    match AddressOf(block, p)
    case Indirect(path) => (|path| == 3 && p > 1024) || PathInReach(v, ino.block[11 + |path|], path)
    case _ => true
  }

  /** As long as no table is read at an address that has wrapped, the lookup is right for a block exactly when
      its tables are readable, and the product does not wrap, or there is no block to find. */
  lemma BlockFoundIsBlockOf(v: Volume, ino: Inode, block: nat)
    requires v.Valid() && ino.Valid()
    ensures Reachable(v, ino, block) ==> TablesInReach(v, ino, block)
    ensures TablesInReach(v, ino, block) ==>
              (BlockFound(v, ino, block) == BlockOf(v, ino, block)
               <==> Reachable(v, ino, block) || BlockOf(v, ino, block) == 0)
  {
    hide PathReadable, PathInReach, FollowIo, Follow, Digits;
    var p := v.Pointers();
    AddressingIsABijection(block, p);
    var a := AddressOf(block, p);
    if a.Indirect? {
      FollowIoIsFollow(v, ino.block[11 + |a.path|], a.path);
    }
  }

  // ---------------------------------------------------------------- inputs at which the lookup is wrong

  lemma FirstIndirect(p: nat)
    requires p > 0
    ensures AddressOf(11, p) == Direct(11) && AddressOf(12, p) == Indirect([0])
  {
    PowSmall(p);
    assert Digits(0, p, 0) == [] && Digits(0, p, 1) == [0];
  }

  /** On a device that serves no transfer, the block of a file that a table names is taken for a hole. */
  lemma UnreadableTable()
    ensures var data := seq<byte>(0x1000, (i: nat) => if i == 0x400 then 2 else 0);
            var v := Volume(Device(0x200, data, (lba, count) => false), 0, 0x400, 1, 128, (group: nat) => 0);
            var ino := Inode(0x4000, seq<Word>(15, (i: nat) => 1));
            v.Valid() && ino.Valid() && BlockOf(v, ino, 12) == 2 && BlockFound(v, ino, 12) == 0
  {
    var data := seq<byte>(0x1000, (i: nat) => if i == 0x400 then 2 else 0);
    var v := Volume(Device(0x200, data, (lba, count) => false), 0, 0x400, 1, 128, (group: nat) => 0);
    var ino := Inode(0x4000, seq<Word>(15, (i: nat) => 1));
    FirstIndirect(256);
    assert TableEntry(v, 1, 0) == 2;
    assert Follow(v, 1, [0]) == 2;
  }

  /** With blocks of 8192 bytes the first triply indirect block is not found, although every table can be read. */
  lemma WrappedProduct()
    ensures var data := seq<byte>(0xA000, (i: nat) => if i == 0x2000 then 2 else if i == 0x4000 then 3
                                                      else if i == 0x6000 then 4 else 0);
            var v := Volume(Device(0x200, data, (lba, count) => true), 0, 0x2000, 1, 128, (group: nat) => 0);
            var ino := Inode(0, seq<Word>(15, (i: nat) => 1));
            var block := DIRECT + 2048 + 2048 * 2048;
            && v.Valid() && ino.Valid()
            && BlockOf(v, ino, block) == 4 && BlockFound(v, ino, block) == 0
  {
    var data := seq<byte>(0xA000, (i: nat) => if i == 0x2000 then 2 else if i == 0x4000 then 3
                                              else if i == 0x6000 then 4 else 0);
    var v := Volume(Device(0x200, data, (lba, count) => true), 0, 0x2000, 1, 128, (group: nat) => 0);
    var ino := Inode(0, seq<Word>(15, (i: nat) => 1));
    FirstTriple(2048);
    SmallEntry(v, 1);
    SmallEntry(v, 2);
    SmallEntry(v, 3);
    hide TableEntry;
    FollowThree(v, 1, 2, 3, 4);
  }

  /** The first entry of a table, if it is below 256. */
  lemma SmallEntry(v: Volume, table: Word)
    requires v.Pointers() > 0 && v.ByteAt(v.Address(table) + 1) == 0
    requires v.ByteAt(v.Address(table) + 2) == 0 && v.ByteAt(v.Address(table) + 3) == 0
    ensures var low: nat := v.ByteAt(v.Address(table)); TableEntry(v, table, 0) == low
  {
    hide Volume.ByteAt, Volume.Address;
    var s := v.Bytes(v.Address(table), v.blockSize);
    assert s[0] == v.ByteAt(v.Address(table) + 0);
  }

  lemma FollowThree(v: Volume, a: Word, b: Word, c: Word, d: Word)
    requires v.Pointers() > 0 && a != 0 && b != 0 && c != 0
    requires TableEntry(v, a, 0) == b && TableEntry(v, b, 0) == c && TableEntry(v, c, 0) == d
    ensures Follow(v, a, [0, 0, 0]) == d
  {
    hide TableEntry;
    var one, two, three := [0], [0, 0], [0, 0, 0];
    assert one[1..] == [] && two[1..] == one && three[1..] == two;
    assert Follow(v, c, one) == d;
    assert Follow(v, b, two) == d;
  }

  lemma FirstTriple(p: nat)
    requires p > 0
    ensures AddressOf(DIRECT + p + p * p, p) == Indirect([0, 0, 0])
  {
    PowSmall(p);
    MultipleIsLarge(p * p, p);
    DigitsCons(0, p, 3);
    DigitsCons(0, p, 2);
    DigitsCons(0, p, 1);
    assert p * p * p > 0 by { assert Pow(p, 3) > 0 by { PowPositive(p, 3); } }
    assert Digits(0, p, 0) == [];
  }

  /** No byte of a file with a 32-bit size lies in such a block. */
  lemma NoOffsetReachesIt(v: Volume, pos: Word)
    requires v.Valid() && v.Pointers() > 1024
    ensures var a := AddressOf(BlockIndex(pos, v.blockSize), v.Pointers());
            a.Indirect? ==> |a.path| <= 2
  {
    var p := v.Pointers();
    OffsetParts(pos, v.blockSize);
    if p == 2048 {
    } else if p == 4096 {
    } else if p == 8192 {
    } else {
      assert p == 16384;
    }
  }

  // ---------------------------------------------------------------- the code

  function Mul32(x: nat, y: nat): Word { x * y % WORD_LIMIT }

  /** Where 32-bit arithmetic stops being exact, for the block sizes the format allows. */
  lemma PointerProducts(v: Volume)
    requires v.Valid()
    ensures var p := v.Pointers();
            && Mul32(p, p) == p * p
            && (Mul32(Mul32(p, p), p) == p * p * p <==> p <= 1024)
            && (p > 1024 ==> Mul32(Mul32(p, p), p) == 0)
            && Capacity(1024) < WORD_LIMIT
  {
    var p := v.Pointers();
    if p == 256 {
    } else if p == 512 {
    } else if p == 1024 {
    } else if p == 2048 {
    } else if p == 4096 {
    } else if p == 8192 {
    } else {
      assert p == 16384;
    }
  }

  /** Load a whole block into a fresh buffer. */
  method LoadTable(v: Volume, bnum: Word) returns (failed: bool, ptrs: array<byte>)
    requires v.Valid()
    ensures failed <==> !TableReadable(v, bnum)
    ensures fresh(ptrs) && ptrs.Length == v.blockSize
    ensures !failed ==> ptrs[..] == v.Bytes(v.BlockOffset(bnum), v.blockSize)
  {
    ptrs := new byte[v.blockSize];
    var off := v.BlockOffset(bnum);
    failed := Read(v, ptrs, 0, off, v.blockSize);
    if !failed {
      BytesOnDevice(v, off, v.blockSize);
      assert ptrs[..] == v.dev.data[off..off + v.blockSize];
    }
  }

  /** The loop that computes `pointers` to the power `iter - 1`. */
  method Divisor(pointers: nat, iter: nat) returns (div: nat)
    requires pointers > 0 && iter > 0 && Pow(pointers, iter) < WORD_LIMIT
    ensures div == Pow(pointers, iter - 1)
  {
    div := 1;
    for i := 1 to iter
      invariant div == Pow(pointers, i - 1)
    {
      PowMonotone(pointers, i, iter);
      div := Mul32(div, pointers);
    }
  }

  /** The table walk with its own range checks: out of range, the answer is 0. */
  method GetBlockIter(v: Volume, log: Word, bnum: Word, iter: nat) returns (r: Word)
    requires v.Valid() && Pow(v.Pointers(), iter) < WORD_LIMIT
    ensures iter == 0 || log >= Pow(v.Pointers(), iter) ==> r == 0
    ensures iter > 0 && log < Pow(v.Pointers(), iter) ==>
              (DigitsBelow(log, v.Pointers(), iter);
               r == FollowIo(v, bnum, Digits(log, v.Pointers(), iter)))
    decreases iter
  {
    if bnum == 0 || iter == 0 {
      if iter > 0 && log < Pow(v.Pointers(), iter) { DigitsBelow(log, v.Pointers(), iter); }
      return 0;
    }
    hide Volume.Valid;
    var pointers := v.blockSize / 4;
    ValidSizes(v);
    assert pointers == v.Pointers();
    var failed, ptrs := LoadTable(v, bnum);
    ghost var q := Pow(pointers, iter - 1);
    PowPositive(pointers, iter - 1);
    PowMonotone(pointers, iter - 1, iter);
    QuotientBelow(log, q, pointers);
    if log < Pow(pointers, iter) { DigitsBelow(log, pointers, iter); }
    DigitsCons(log, pointers, iter);
    PowSmall(pointers);
    assert Digits(log % q, pointers, 0) == [];
    hide Pow, Digits;
    if failed {
      return 0;
    }
    if iter == 1 {
      if log >= pointers {
        return 0;
      }
      r := Le32(ptrs[..], 4 * log);
    } else {
      var div := Divisor(pointers, iter);
      if log / div >= pointers {
        return 0;
      }
      var ptr := Le32(ptrs[..], 4 * (log / div));
      r := GetBlockIter(v, log % div, ptr, iter - 1);
    }
  }

  lemma ValidSizes(v: Volume)
    requires v.Valid()
    ensures v.blockSize == 4 * v.Pointers() && 256 <= v.Pointers() <= 16384
  {
  }

  lemma {:induction false} PowMonotone(p: nat, i: nat, k: nat)
    requires p > 0 && i <= k
    ensures Pow(p, i) <= Pow(p, k)
    decreases k
  {
    if i < k {
      PowMonotone(p, i, k - 1);
      PowPositive(p, k - 1);
      MultipleIsLarge(Pow(p, k - 1), p);
    }
  }

  /** The lookup of a block that lies `rest` blocks into what `level` levels of tables reach. */
  lemma FoundThrough(v: Volume, ino: Inode, block: nat, level: nat, rest: nat)
    requires v.Valid() && ino.Valid() && 1 <= level <= 3 && rest < Pow(v.Pointers(), level)
    requires !(level == 3 && v.Pointers() > 1024)
    requires var p := v.Pointers();
             block == DIRECT + (if level >= 2 then p else 0) + (if level == 3 then p * p else 0) + rest
    ensures Below(Digits(rest, v.Pointers(), level), v.Pointers())
    ensures BlockFound(v, ino, block) == FollowIo(v, ino.block[11 + level], Digits(rest, v.Pointers(), level))
  {
    hide FollowIo, Digits, Pow;
    var p := v.Pointers();
    PowSmall(p);
    DigitsBelow(rest, p, level);
  }

  lemma FoundDirectly(v: Volume, ino: Inode, block: nat)
    requires v.Valid() && ino.Valid() && block < DIRECT
    ensures BlockFound(v, ino, block) == ino.block[block]
  {
  }

  lemma FoundNowhere(v: Volume, ino: Inode, block: nat)
    requires v.Valid() && ino.Valid()
    requires var p := v.Pointers(); block >= DIRECT + p + p * p && (p > 1024 || block >= Capacity(p))
    ensures BlockFound(v, ino, block) == 0
  {
    hide FollowIo, Digits, Pow;
    AddressingIsABijection(block, v.Pointers());
  }

  method GetBlock(v: Volume, ino: Inode, logBlock: Word) returns (r: Word)
    requires v.Valid() && ino.Valid()
    ensures r == BlockFound(v, ino, logBlock)
  {
    var pointers := v.blockSize / 4;
    var log := logBlock;
    hide Follow, FollowIo, Digits, BlockFound, Pow, Mul32, Volume.Valid;
    PointerProducts(v);
    PowSmall(pointers);
    if log < DIRECT {
      FoundDirectly(v, ino, log);
      return ino.block[log];
    }
    log := log - DIRECT;
    if log < pointers {
      FoundThrough(v, ino, logBlock, 1, log);
      r := GetBlockIter(v, log, ino.block[12], 1);
      return;
    }
    log := log - pointers;
    if log < Mul32(pointers, pointers) {
      FoundThrough(v, ino, logBlock, 2, log);
      r := GetBlockIter(v, log, ino.block[13], 2);
      return;
    }
    log := log - Mul32(pointers, pointers);
    if log < Mul32(Mul32(pointers, pointers), pointers) {
      FoundThrough(v, ino, logBlock, 3, log);
      r := GetBlockIter(v, log, ino.block[14], 3);
      return;
    }
    FoundNowhere(v, ino, logBlock);
    return 0;
  }
}
