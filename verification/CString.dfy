/** NUL-terminated strings in character arrays, and the library functions used on them. */
module CString {
  /** The C string at the start of some characters; one that is not terminated ends where they end. */
  function CStr(s: seq<char>): (t: string)
    ensures |t| <= |s| && t == s[..|t|] && '\0' !in t && (|t| < |s| ==> s[|t|] == '\0')
  {
    if s == [] || s[0] == '\0' then [] else [s[0]] + CStr(s[1..])
  }

  lemma {:induction false} CStrIs(s: seq<char>, t: string)
    requires |t| <= |s| && t == s[..|t|] && '\0' !in t && (|t| < |s| ==> s[|t|] == '\0')
    ensures CStr(s) == t
  {
    if t != [] {
      assert s[0] == t[0];
      CStrIs(s[1..], t[1..]);
    }
  }

  /** The character at `i` of a string, with its terminator. */
  function CharAt(s: seq<char>, i: nat): char { if i < |s| then s[i] else '\0' }

  method Strlen(s: array<char>) returns (n: nat)
    requires exists i :: 0 <= i < s.Length && s[i] == '\0'
    ensures n == |CStr(s[..])|
  {
    n := 0;
    while s[n] != '\0'
      invariant n < s.Length && forall i :: 0 <= i < n ==> s[i] != '\0'
      decreases s.Length - n
    {
      n := n + 1;
    }
    CStrIs(s[..], s[..n]);
  }

  /** `strncpy`: the string, then zeros up to `n`. */
  method Strncpy(dst: array<char>, src: seq<char>, n: nat)
    requires n <= dst.Length
    modifies dst
    ensures forall i :: 0 <= i < n ==> dst[i] == if i < |CStr(src)| then CStr(src)[i] else '\0'
    ensures forall i :: n <= i < dst.Length ==> dst[i] == old(dst[i])
  {
    ghost var t := CStr(src);
    var i := 0;
    while i < n && CharAt(src, i) != '\0'
      invariant i <= n && i <= |t|
      invariant forall j :: 0 <= j < i ==> dst[j] == t[j]
      invariant forall j :: i <= j < dst.Length ==> dst[j] == old(dst[j])
    {
      dst[i] := CharAt(src, i);
      i := i + 1;
    }
    while i < n
      invariant i <= n
      invariant forall j :: 0 <= j < i ==> dst[j] == if j < |t| then t[j] else '\0'
      invariant forall j :: n <= j < dst.Length ==> dst[j] == old(dst[j])
    {
      dst[i] := '\0';
      i := i + 1;
    }
  }

  /** The strings agree before position `k`, and `r` is the difference of their characters there. */
  ghost predicate FirstDifference(s: string, t: string, k: nat, r: int) {
    k <= |s| && k <= |t| && s[..k] == t[..k] && r == CharAt(s, k) as int - CharAt(t, k) as int
  }

  /** `strcmp`: 0 for equal strings, else the difference of the first characters that differ. */
  method Strcmp(s: seq<char>, t: seq<char>) returns (r: int)
    ensures r == 0 <==> CStr(s) == CStr(t)
    ensures exists k: nat :: FirstDifference(CStr(s), CStr(t), k, r)
  {
    ghost var x, y := CStr(s), CStr(t);
    hide CStr;
    var i := 0;
    while true
      invariant i <= |x| && i <= |y| && x[..i] == y[..i]
      decreases |x| - i
    {
      var c1, c2 := CharAt(s, i), CharAt(t, i);
      assert FirstDifference(x, y, i, c1 as int - c2 as int);
      if c1 == '\0' {
        assert x == x[..i] && (c2 == '\0' ==> y == y[..i]);
        return c1 as int - c2 as int;
      }
      if c1 != c2 {
        return c1 as int - c2 as int;
      }
      i := i + 1;
    }
  }
}
