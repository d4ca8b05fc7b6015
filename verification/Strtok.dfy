/** Cutting a string into tokens in place. */
module Strtok {
  import opened Words

  // ---------------------------------------------------------------- what tokens are

  /** The pieces of a text between delimiters, empty ones included. */
  function Pieces(cs: seq<byte>, delim: seq<byte>): (ps: seq<seq<byte>>)
    ensures ps != []
  {
    if cs == [] then [[]]
    else
      var rest := Pieces(cs[1..], delim);
      if cs[0] in delim then [[]] + rest else [[cs[0]] + rest[0]] + rest[1..]
  }

  function NonEmpty(ps: seq<seq<byte>>): seq<seq<byte>> {
    if ps == [] then [] else if ps[0] == [] then NonEmpty(ps[1..]) else [ps[0]] + NonEmpty(ps[1..])
  }

  /** The maximal delimiter-free runs of a text, in order. */
  function Runs(cs: seq<byte>, delim: seq<byte>): seq<seq<byte>> {
    NonEmpty(Pieces(cs, delim))
  }

  /** Length of the longest prefix of characters in (or out of) a set. */
  function PrefixIn(cs: seq<byte>, accept: seq<byte>): (n: nat)
    ensures n <= |cs|
  {
    if cs == [] || cs[0] !in accept then 0 else 1 + PrefixIn(cs[1..], accept)
  }

  function PrefixOut(cs: seq<byte>, reject: seq<byte>): (n: nat)
    ensures n <= |cs|
  {
    if cs == [] || cs[0] in reject then 0 else 1 + PrefixOut(cs[1..], reject)
  }

  lemma {:induction false} PrefixInIs(cs: seq<byte>, accept: seq<byte>, n: nat)
    requires n <= |cs| && forall i :: 0 <= i < n ==> cs[i] in accept
    requires n == |cs| || cs[n] !in accept
    ensures PrefixIn(cs, accept) == n
  {
    if n > 0 { PrefixInIs(cs[1..], accept, n - 1); }
  }

  lemma {:induction false} PrefixOutIs(cs: seq<byte>, reject: seq<byte>, n: nat)
    requires n <= |cs| && forall i :: 0 <= i < n ==> cs[i] !in reject
    requires n == |cs| || cs[n] in reject
    ensures PrefixOut(cs, reject) == n
  {
    if n > 0 { PrefixOutIs(cs[1..], reject, n - 1); }
  }

  /** Leading delimiters do not matter. */
  lemma {:induction false} SkipDelimiters(cs: seq<byte>, delim: seq<byte>)
    ensures var k := PrefixIn(cs, delim);
            Runs(cs, delim) == Runs(cs[k..], delim) && (k < |cs| ==> cs[k] !in delim)
  {
    if cs != [] && cs[0] in delim {
      SkipDelimiters(cs[1..], delim);
      assert cs[1..][PrefixIn(cs[1..], delim)..] == cs[PrefixIn(cs, delim)..];
      assert Pieces(cs, delim)[1..] == Pieces(cs[1..], delim);
    } else {
      assert cs[0..] == cs;
    }
  }

  lemma {:induction false} FirstPiece(cs: seq<byte>, delim: seq<byte>)
    ensures var n := PrefixOut(cs, delim);
            && Pieces(cs, delim)[0] == cs[..n]
            && (n < |cs| ==> cs[n] in delim && Pieces(cs, delim)[1..] == Pieces(cs[n + 1..], delim))
            && (n == |cs| ==> Pieces(cs, delim)[1..] == [])
  {
    if cs != [] {
      var n := PrefixOut(cs, delim);
      if cs[0] in delim {
        assert Pieces(cs, delim)[1..] == Pieces(cs[1..], delim);
      } else {
        FirstPiece(cs[1..], delim);
        assert cs[..n] == [cs[0]] + cs[1..][..n - 1];
        if n < |cs| { assert cs[1..][n..] == cs[n + 1..]; }
      }
    }
  }

  lemma EmptyRuns(delim: seq<byte>)
    ensures Runs([], delim) == []
  {
    assert NonEmpty([[]]) == NonEmpty([[]][1..]);
  }

  /** The first run is what `strspn` and `strcspn` delimit; the others are the runs of what follows it. */
  lemma FirstRun(cs: seq<byte>, delim: seq<byte>)
    ensures var k := PrefixIn(cs, delim);
            var rest := cs[k..];
            var n := PrefixOut(rest, delim);
            if rest == [] then Runs(cs, delim) == []
            else n > 0 && Runs(cs, delim) ==
                 [rest[..n]] + (if n == |rest| then [] else Runs(rest[n + 1..], delim))
  {
    SkipDelimiters(cs, delim);
    var rest := cs[PrefixIn(cs, delim)..];
    if rest != [] {
      FirstPiece(rest, delim);
      EmptyRuns(delim);
    } else {
      EmptyRuns(delim);
    }
  }

  lemma {:induction false} RunsAreClean(cs: seq<byte>, delim: seq<byte>)
    ensures forall r :: r in Runs(cs, delim) ==> r != [] && forall c :: c in r ==> c !in delim && c in cs
    decreases |cs|
  {
    FirstRun(cs, delim);
    var k := PrefixIn(cs, delim);
    var rest := cs[k..];
    if rest != [] {
      var n := PrefixOut(rest, delim);
      OutsideDelim(rest, delim);
      forall c | c in rest[..n] ensures c !in delim && c in cs {}
      if n < |rest| {
        RunsAreClean(rest[n + 1..], delim);
        assert forall c :: c in rest[n + 1..] ==> c in cs;
      }
    }
  }

  lemma {:induction false} OutsideDelim(cs: seq<byte>, reject: seq<byte>)
    ensures forall i :: 0 <= i < PrefixOut(cs, reject) ==> cs[i] !in reject
  {
    if cs != [] && cs[0] !in reject { OutsideDelim(cs[1..], reject); }
  }

  // ---------------------------------------------------------------- putting names together

  /** Each name after a delimiter. */
  function Joined(names: seq<seq<byte>>, d: byte): seq<byte> {
    if names == [] then [] else [d] + names[0] + Joined(names[1..], d)
  }

  /** Non-empty and without the delimiter. */
  predicate IsName(name: seq<byte>, d: byte) { name != [] && d !in name }

  lemma LeadingDelimiter(cs: seq<byte>, d: byte)
    ensures Runs([d] + cs, [d]) == Runs(cs, [d])
  {
    assert ([d] + cs)[1..] == cs;
    assert ([[]] + Pieces(cs, [d]))[1..] == Pieces(cs, [d]);
  }

  lemma NameThenDelimiter(name: seq<byte>, rest: seq<byte>, d: byte)
    requires IsName(name, d) && (rest == [] || rest[0] == d)
    ensures Runs(name + rest, [d]) == [name] + Runs(rest, [d])
  {
    var cs := name + rest;
    assert cs[0] == name[0];
    PrefixInIs(cs, [d], 0);
    assert cs[0..] == cs;
    PrefixOutIs(cs, [d], |name|);
    FirstRun(cs, [d]);
    assert cs[..|name|] == name;
    if rest != [] {
      assert cs[|name| + 1..] == rest[1..] && rest == [d] + rest[1..];
      LeadingDelimiter(rest[1..], d);
    } else {
      EmptyRuns([d]);
    }
  }

  /** Names put together are found again. */
  lemma {:induction false} JoinedRuns(names: seq<seq<byte>>, d: byte)
    requires forall n :: n in names ==> IsName(n, d)
    ensures Runs(Joined(names, d), [d]) == names
  {
    EmptyRuns([d]);
    if names != [] {
      hide Runs, IsName;
      var rest := Joined(names[1..], d);
      JoinedRuns(names[1..], d);
      NameThenDelimiter(names[0], rest, d);
      assert Joined(names, d) == [d] + (names[0] + rest);
      LeadingDelimiter(names[0] + rest, d);
    }
  }

  // ---------------------------------------------------------------- strings in memory

  /** A NUL-terminated string runs from `at` to `end`. */
  predicate IsString(s: seq<byte>, at: nat, end: nat) {
    at <= end < |s| && s[end] == 0 && forall i :: at <= i < end ==> s[i] != 0
  }

  method Strlen(s: array<byte>, at: nat, ghost end: nat) returns (n: nat)
    requires IsString(s[..], at, end)
    ensures at + n == end
  {
    n := 0;
    while s[at + n] != 0
      invariant at + n <= end
      decreases end - n
    {
      n := n + 1;
    }
  }

  method Strspn(s: array<byte>, at: nat, accept: seq<byte>, ghost end: nat) returns (count: nat)
    requires IsString(s[..], at, end)
    ensures count == PrefixIn(s[at..end], accept)
  {
    ghost var cs := s[at..end];
    count := 0;
    var p := at;
    while s[p] != 0
      invariant p == at + count <= end
      invariant forall i :: 0 <= i < count ==> cs[i] in accept
      decreases end - p
    {
      var a := 0;
      while a < |accept|
        invariant a <= |accept| && s[p] !in accept[..a]
      {
        if s[p] == accept[a] {
          break;
        }
        a := a + 1;
      }
      if a == |accept| {
        assert accept[..a] == accept;
        PrefixInIs(cs, accept, count);
        return;
      }
      count := count + 1;
      p := p + 1;
    }
    PrefixInIs(cs, accept, count);
  }

  method Strcspn(s: array<byte>, at: nat, reject: seq<byte>, ghost end: nat) returns (count: nat)
    requires IsString(s[..], at, end)
    ensures count == PrefixOut(s[at..end], reject)
  {
    ghost var cs := s[at..end];
    count := 0;
    var p := at;
    while s[p] != 0
      invariant p == at + count <= end
      invariant forall i :: 0 <= i < count ==> cs[i] !in reject
      decreases end - p
    {
      for r := 0 to |reject|
        invariant s[p] !in reject[..r]
      {
        if s[p] == reject[r] {
          PrefixOutIs(cs, reject, count);
          return;
        }
      }
      assert reject[..|reject|] == reject;
      count := count + 1;
      p := p + 1;
    }
    PrefixOutIs(cs, reject, count);
  }

  /** Where `strtok_r` resumes: the string passed in, or the saved position when that is null. */
  function Resume(s: Option<nat>, save: Option<nat>): Option<nat> {
    if s.Some? then s else save
  }

  /** The outcome of a call that starts at `from`: the next run of the text has become a string of its own, by
      writing at most the one byte that ends it, and exactly the remaining runs lie behind the saved position. */
  predicate IsCut(before: seq<byte>, after: seq<byte>, from: nat, end: nat, delim: seq<byte>,
                  tok: Option<nat>, save: Option<nat>)
    requires from <= end < |before|
  {
    var runs := Runs(before[from..end], delim);
    if runs == [] then tok.None? && save == Some(end) && after == before
    else
      && tok.Some? && save.Some?
      && var t, stop, next := tok.value, tok.value + |runs[0]|, save.value;
      && from <= t < stop <= end && (next == stop == end || next == stop + 1 <= end)
      && after == before[stop := 0]
      && IsString(after, t, stop) && after[t..stop] == runs[0]
      && IsString(after, next, end) && Runs(after[next..end], delim) == runs[1..]
  }

  method StrtokR(buf: array<byte>, s: Option<nat>, delim: seq<byte>, save: Option<nat>, ghost end: nat)
    returns (tok: Option<nat>, newSave: Option<nat>)
    requires Resume(s, save).Some? ==> IsString(buf[..], Resume(s, save).value, end)
    modifies buf
    ensures Resume(s, save).None? ==> tok.None? && newSave.None? && buf[..] == old(buf[..])
    ensures Resume(s, save).Some? ==>
              IsCut(old(buf[..]), buf[..], Resume(s, save).value, end, delim, tok, newSave)
  {
    var p := if s.Some? then s else save;
    if p.None? || buf[p.value] == 0 {
      EmptyRuns(delim);
      assert p.Some? ==> p.value == end && buf[..][p.value..end] == [];
      return None, p;
    }
    tok, newSave := Cut(buf, p.value, delim, end);
  }

  /** The part of `strtok_r` after the start is known. */
  method Cut(buf: array<byte>, from: nat, delim: seq<byte>, ghost end: nat)
    returns (tok: Option<nat>, save: Option<nat>)
    requires IsString(buf[..], from, end)
    modifies buf
    ensures IsCut(old(buf[..]), buf[..], from, end, delim, tok, save)
  {
    hide Runs, PrefixIn, PrefixOut;
    ghost var b0 := buf[..];
    ghost var text := b0[from..end];
    FirstRun(text, delim);
    EmptyRuns(delim);
    assert buf[from..end] == text;
    var k := Strspn(buf, from, delim, end);
    var at := from + k;
    assert text[k..] == buf[at..end] == b0[at..end];
    if buf[at] == 0 {
      return None, Some(at);
    }
    var start := at;
    var n := Strcspn(buf, at, delim, end);
    at := at + n;
    if buf[at] != 0 {
      buf[at] := 0;
      at := at + 1;
    }
    assert buf[..] == b0[start + n := 0];
    CutLeaves(b0, buf[..], start, n, at, end);
    return Some(start), Some(at);
  }

  lemma CutLeaves(b0: seq<byte>, b1: seq<byte>, start: nat, n: nat, at: nat, end: nat)
    requires IsString(b0, start, end) && start + n <= end
    requires b1 == b0[start + n := 0] && at == if start + n < end then start + n + 1 else end
    ensures IsString(b1, start, start + n) && b1[start..start + n] == b0[start..end][..n]
    ensures IsString(b1, at, end)
    ensures start + n < end ==> b1[at..end] == b0[start..end][n + 1..]
    ensures start + n == end ==> b1[at..end] == []
  {
  }
}
