/** From a path to an inode: directory lookups folded over the names of the path. */
module PathWalk {
  import opened Words
  import opened Disk
  import opened BlockMap
  import opened Directory
  import opened Strtok

  const EXT2_ROOT_INO: Word := 2
  const SLASH: seq<byte> := [0x2F]

  /** Every inode on the way starts below 2^32, and every directory is intact as far as the search in it goes. */
  predicate WalkIntact(v: Volume, inum: Word, names: seq<seq<byte>>)
    requires v.Valid()
    decreases |names|
  {
    names == [] || inum == 0 ||
    (InodeInReach(v, inum) &&
     (InodeAt(v, inum).None? ||
      (var ino := InodeAt(v, inum).value;
       SearchIntact(v, ino, names[0], 0) && WalkIntact(v, Search(v, ino, names[0], 0), names[1..]))))
  }

  /** The inode reached by looking the names up one after another; 0 when one is missing. */
  function Resolve(v: Volume, inum: Word, names: seq<seq<byte>>): Word
    requires v.Valid() && WalkIntact(v, inum, names)
    decreases |names|
  {
    if names == [] || inum == 0 then inum
    else if InodeAt(v, inum).None? then 0
    else Resolve(v, Search(v, InodeAt(v, inum).value, names[0], 0), names[1..])
  }

  lemma {:induction false} ResolveConcat(v: Volume, inum: Word, xs: seq<seq<byte>>, ys: seq<seq<byte>>)
    requires v.Valid() && WalkIntact(v, inum, xs + ys)
    ensures WalkIntact(v, inum, xs)
    ensures WalkIntact(v, Resolve(v, inum, xs), ys)
    ensures Resolve(v, inum, xs + ys) == Resolve(v, Resolve(v, inum, xs), ys)
    decreases |xs|
  {
    if xs == [] {
      assert xs + ys == ys;
    } else if inum != 0 && InodeAt(v, inum).Some? {
      assert (xs + ys)[0] == xs[0] && (xs + ys)[1..] == xs[1..] + ys;
      ResolveConcat(v, Search(v, InodeAt(v, inum).value, xs[0], 0), xs[1..], ys);
    }
  }

  /** The path of a list of names: each after a slash. */
  function PathOf(names: seq<seq<byte>>): seq<byte> { Joined(names, '/' as int) }

  predicate AreNames(names: seq<seq<byte>>) {
    forall n :: n in names ==> n != [] && '/' as int !in n
  }

  lemma NamesOfPath(names: seq<seq<byte>>)
    requires AreNames(names)
    ensures Runs(PathOf(names), SLASH) == names
  {
    JoinedRuns(names, '/' as int);
  }

  /** What the walk makes of a path given as a list of names: from the root, inode 2, one after another. */
  ghost predicate ReachesNames(v: Volume, filepath: seq<byte>, r: Word)
    requires v.Valid()
  {
    forall names :: AreNames(names) && filepath == PathOf(names) && WalkIntact(v, 2, names) ==>
      r == Resolve(v, 2, names)
  }

  lemma NamesReached(v: Volume, filepath: seq<byte>, r: Word)
    requires v.Valid()
    requires WalkIntact(v, EXT2_ROOT_INO, Runs(filepath, SLASH)) ==>
               r == Resolve(v, EXT2_ROOT_INO, Runs(filepath, SLASH))
    ensures ReachesNames(v, filepath, r)
  {
    hide WalkIntact, Resolve, Runs, PathOf, AreNames;
    forall names | AreNames(names) && filepath == PathOf(names) && WalkIntact(v, 2, names)
      ensures r == Resolve(v, 2, names)
    {
      NamesOfPath(names);
    }
  }

  /** And its record, if that starts below 2^32. */
  ghost predicate ReachesRecord(v: Volume, filepath: seq<byte>, r: Option<Inode>)
    requires v.Valid()
  {
    forall names :: AreNames(names) && filepath == PathOf(names) && WalkIntact(v, 2, names)
                    && InodeInReach(v, Resolve(v, 2, names)) ==>
      r == InodeAt(v, Resolve(v, 2, names))
  }

  lemma RecordReached(v: Volume, filepath: seq<byte>, r: Option<Inode>)
    requires v.Valid()
    requires WalkIntact(v, EXT2_ROOT_INO, Runs(filepath, SLASH)) ==>
               var inum := Resolve(v, EXT2_ROOT_INO, Runs(filepath, SLASH));
               InodeInReach(v, inum) ==> r == InodeAt(v, inum)
    ensures ReachesRecord(v, filepath, r)
  {
    hide WalkIntact, Resolve, Runs, PathOf, AreNames, InodeInReach, InodeAt;
    forall names | AreNames(names) && filepath == PathOf(names) && WalkIntact(v, 2, names)
                   && InodeInReach(v, Resolve(v, 2, names))
      ensures r == InodeAt(v, Resolve(v, 2, names))
    {
      NamesOfPath(names);
    }
  }

  /** `strdup` of a string, with its terminator. */
  method Strdup(s: seq<byte>) returns (buf: array<byte>)
    requires 0 !in s
    ensures fresh(buf) && buf.Length == |s| + 1
    ensures IsString(buf[..], 0, |s|) && buf[..|s|] == s
  {
    buf := new byte[|s| + 1](i => 0);
    forall i | 0 <= i < |s| {
      buf[i] := s[i];
    }
  }

  /** What the token variables of the walk say about the names still to come. */
  ghost predicate Ahead(buf: seq<byte>, tok: Option<nat>, save: Option<nat>, end: nat, names: seq<seq<byte>>) {
    if tok.None? then names == []
    else
      && names != [] && save.Some?
      && var stop := tok.value + |names[0]|;
      && stop <= save.value && (stop < save.value || save.value == end)
      && IsString(buf, tok.value, stop) && buf[tok.value..stop] == names[0]
      && IsString(buf, save.value, end)
      && Runs(buf[save.value..end], SLASH) == names[1..]
  }

  method FirstToken(path: array<byte>, ghost end: nat) returns (tok: Option<nat>, save: Option<nat>)
    requires IsString(path[..], 0, end)
    modifies path
    ensures Ahead(path[..], tok, save, end, Runs(old(path[..end]), SLASH))
  {
    assert path[0..end] == path[..end];
    tok, save := StrtokR(path, Some(0), SLASH, None, end);
  }

  /** Cutting off the next name leaves the current one alone. */
  method NextToken(path: array<byte>, tok: nat, save: Option<nat>, ghost end: nat, ghost names: seq<seq<byte>>)
    returns (next: Option<nat>, newSave: Option<nat>)
    requires Ahead(path[..], Some(tok), save, end, names)
    modifies path
    ensures names != [] && Ahead(path[..], next, newSave, end, names[1..])
    ensures IsString(path[..], tok, tok + |names[0]|) && path[tok..tok + |names[0]|] == names[0]
  {
    ghost var b := path[..];
    next, newSave := StrtokR(path, None, SLASH, save, end);
    ghost var stop := tok + |names[0]|;
    assert path[..stop + 1] == b[..stop + 1];
    assert path[tok..stop] == path[..stop + 1][tok..stop] == b[tok..stop];
  }

  /** The name a token position stands for, as the callee reads it. */
  method NameAt(path: array<byte>, tok: nat, ghost end: nat) returns (name: seq<byte>)
    requires IsString(path[..], tok, end)
    ensures name == path[tok..end]
  {
    var n := Strlen(path, tok, end);
    name := path[tok..tok + n];
  }

  method GetFpNum(v: Volume, filepath: seq<byte>, junk: nat -> byte) returns (r: Word)
    requires v.Valid() && 0 !in filepath
    ensures WalkIntact(v, EXT2_ROOT_INO, Runs(filepath, SLASH)) ==>
              r == Resolve(v, EXT2_ROOT_INO, Runs(filepath, SLASH))
    ensures ReachesNames(v, filepath, r)
  {
    hide ReachesNames, WalkIntact, Resolve, Runs, IsString, Volume.Valid, Inode.Valid, InodeAt, InodeFound,
         SearchIntact, Search;
    ghost var all, end := Runs(filepath, SLASH), |filepath|;
    ghost var intact := WalkIntact(v, EXT2_ROOT_INO, all);
    var path := Strdup(filepath);
    var i: Word := EXT2_ROOT_INO;
    var tok: Option<nat>, save: Option<nat> := FirstToken(path, end);
    ghost var names := all;
    while tok.Some? && i != 0
      invariant Ahead(path[..], tok, save, end, names)
      invariant intact ==> WalkIntact(v, i, names) && Resolve(v, i, names) == Resolve(v, EXT2_ROOT_INO, all)
      decreases |names|
    {
      var next, newSave := NextToken(path, tok.value, save, end, names);
      var ino := GetInode(v, i);
      var name := NameAt(path, tok.value, tok.value + |names[0]|);
      if intact { WalkStep(v, i, names); }
      i := LookupInodeNum(v, ino, name, junk);
      names := names[1..];
      tok, save := next, newSave;
    }
    if intact { WalkEnds(v, i, names); }
    NamesReached(v, filepath, i);
    return i;
  }

  lemma WalkStep(v: Volume, inum: Word, names: seq<seq<byte>>)
    requires v.Valid() && WalkIntact(v, inum, names) && names != [] && inum != 0
    ensures InodeAt(v, inum).None? ==> Resolve(v, inum, names) == 0
    ensures InodeAt(v, inum).None? ==> WalkIntact(v, 0, names[1..]) && Resolve(v, 0, names[1..]) == 0
    ensures InodeAt(v, inum).Some? ==>
      var ino := InodeAt(v, inum).value;
      && SearchIntact(v, ino, names[0], 0)
      && var next := Search(v, ino, names[0], 0);
      && WalkIntact(v, next, names[1..]) && Resolve(v, inum, names) == Resolve(v, next, names[1..])
    ensures InodeFound(v, inum) == InodeAt(v, inum)
  {
    InodeFoundIsInodeAt(v, inum);
  }

  lemma WalkEnds(v: Volume, inum: Word, names: seq<seq<byte>>)
    requires v.Valid() && WalkIntact(v, inum, names) && (names == [] || inum == 0)
    ensures Resolve(v, inum, names) == inum
  {
  }

  method GetFp(v: Volume, filepath: seq<byte>, junk: nat -> byte) returns (r: Option<Inode>)
    requires v.Valid() && 0 !in filepath
    ensures WalkIntact(v, EXT2_ROOT_INO, Runs(filepath, SLASH)) ==>
              var inum := Resolve(v, EXT2_ROOT_INO, Runs(filepath, SLASH));
              InodeInReach(v, inum) ==> r == InodeAt(v, inum)
    ensures ReachesRecord(v, filepath, r)
  {
    hide ReachesRecord, WalkIntact, Resolve, Runs, IsString, Volume.Valid, Inode.Valid, InodeAt, InodeFound,
         InodeInReach, SearchIntact, Search;
    ghost var all, end := Runs(filepath, SLASH), |filepath|;
    ghost var intact := WalkIntact(v, EXT2_ROOT_INO, all);
    var path := Strdup(filepath);
    var i := GetInode(v, EXT2_ROOT_INO);
    ghost var inum := EXT2_ROOT_INO;
    var tok: Option<nat>, save: Option<nat> := FirstToken(path, end);
    ghost var names := all;
    while tok.Some? && i.Some?
      invariant i.Some? ==> i.value.Valid()
      invariant Ahead(path[..], tok, save, end, names)
      invariant intact ==>
        && i == InodeFound(v, inum)
        && WalkIntact(v, inum, names) && Resolve(v, inum, names) == Resolve(v, EXT2_ROOT_INO, all)
      decreases |names|
    {
      var next, newSave := NextToken(path, tok.value, save, end, names);
      var name := NameAt(path, tok.value, tok.value + |names[0]|);
      if intact { InodeZero(v); WalkStep(v, inum, names); }
      var iNext := LookupInode(v, i, name, junk);
      if intact { inum := Search(v, i.value, names[0], 0); }
      i := iNext;
      names := names[1..];
      tok, save := next, newSave;
    }
    if intact { WalkStops(v, inum, names); }
    RecordReached(v, filepath, i);
    return i;
  }

  lemma WalkStops(v: Volume, inum: Word, names: seq<seq<byte>>)
    requires v.Valid() && WalkIntact(v, inum, names) && (names == [] || InodeFound(v, inum).None?)
    ensures var last := Resolve(v, inum, names);
            InodeInReach(v, last) ==> InodeFound(v, inum) == InodeAt(v, last)
  {
    InodeFoundIsInodeAt(v, inum);
  }

  lemma InodeZero(v: Volume)
    requires v.Valid()
    ensures InodeFound(v, 0).None?
  {
  }
}
