/** Digit strings: the shortest text of a number in a base, and reading it back. */
module Digits {
  import opened Arithmetic

  const SMALL := "0123456789abcdef"
  const LARGE := "0123456789ABCDEF"

  function Alphabet(small: bool): (s: string)
    ensures |s| == 16
  {
    if small then SMALL else LARGE
  }

  /** The value of a digit character; 16 if it is none. */
  function ValueOf(c: char, small: bool): nat {
    if '0' <= c <= '9' then c as int - '0' as int
    else if small && 'a' <= c <= 'f' then c as int - 'a' as int + 10
    else if !small && 'A' <= c <= 'F' then c as int - 'A' as int + 10
    else 16
  }

  lemma DigitValue(d: nat, small: bool)
    requires d < 16
    ensures ValueOf(Alphabet(small)[d], small) == d
    ensures Alphabet(small)[d] == '0' <==> d == 0
    ensures Alphabet(small)[d] != '\0' && Alphabet(small)[d] != ' '
  {
  }

  lemma DigitOf(c: char, small: bool)
    requires ValueOf(c, small) < 16
    ensures Alphabet(small)[ValueOf(c, small)] == c
  {
  }

  /** The digits of a number, most significant first. */
  function Text(m: nat, base: nat, small: bool): (s: string)
    requires 2 <= base <= 16
    ensures s != []
    decreases m
  {
    if m < base then [Alphabet(small)[m]]
    else
      DivisionShrinks(m, base);
      Text(m / base, base, small) + [Alphabet(small)[m % base]]
  }

  lemma DivisionShrinks(m: nat, base: nat)
    requires 2 <= base <= m
    ensures 0 < m / base < m
  {
    var q := m / base;
    assert m == base * q + m % base;
    assert base * q == 2 * q + (base - 2) * q;
    MultipleIsLarge(q, base - 2);
    assert (base - 2) * q >= 0;
  }

  predicate AllDigits(s: string, base: nat, small: bool) {
    forall i :: 0 <= i < |s| ==> ValueOf(s[i], small) < base
  }

  /** Read a digit string. */
  function Parse(s: string, base: nat, small: bool): nat {
    if s == [] then 0 else Parse(s[..|s| - 1], base, small) * base + ValueOf(s[|s| - 1], small)
  }

  lemma ParseSnoc(s: string, c: char, base: nat, small: bool)
    ensures Parse(s + [c], base, small) == Parse(s, base, small) * base + ValueOf(c, small)
  {
    assert (s + [c])[..|s|] == s;
  }

  lemma ParseOne(c: char, base: nat, small: bool)
    ensures Parse([c], base, small) == ValueOf(c, small)
  {
    ParseSnoc([], c, base, small);
    assert [] + [c] == [c];
  }

  /** What is printed reads back as the number, with no superfluous leading zero. */
  lemma {:induction false} TextParses(m: nat, base: nat, small: bool)
    requires 2 <= base <= 16
    ensures AllDigits(Text(m, base, small), base, small)
    ensures Parse(Text(m, base, small), base, small) == m
    ensures Text(m, base, small)[0] == '0' <==> m == 0
    decreases m
  {
    hide Alphabet, ValueOf, Parse;
    DigitValue(m % base, small);
    if m < base {
      DigitValue(m, small);
      ParseOne(Alphabet(small)[m], base, small);
    } else {
      DivisionShrinks(m, base);
      TextParses(m / base, base, small);
      ParseSnoc(Text(m / base, base, small), Alphabet(small)[m % base], base, small);
      assert m == m / base * base + m % base;
    }
  }

  lemma TextSnoc(q: nat, d: nat, base: nat, small: bool)
    requires 2 <= base <= 16 && q > 0 && d < base
    ensures Text(q * base + d, base, small) == Text(q, base, small) + [Alphabet(small)[d]]
    ensures q * base + d >= base
  {
    DivMod(q, base, d);
    MultipleIsLarge(base, q);
  }

  /** Any digit string without a superfluous leading zero is the printed text of its value: the text is the
      only, and so the shortest, way to write the number. */
  lemma {:induction false} TextIsCanonical(s: string, base: nat, small: bool)
    requires 2 <= base <= 16 && s != [] && AllDigits(s, base, small) && (|s| == 1 || s[0] != '0')
    ensures Text(Parse(s, base, small), base, small) == s
    ensures s[0] != '0' ==> Parse(s, base, small) > 0
  {
    hide Alphabet, ValueOf, Parse, Text;
    var init, c := s[..|s| - 1], s[|s| - 1];
    var d := ValueOf(c, small);
    DigitOf(c, small);
    DigitValue(d, small);
    assert s == init + [c];
    if |s| == 1 {
      assert s == [c];
      ParseOne(c, base, small);
      TextOne(d, base, small);
    } else {
      TextIsCanonical(init, base, small);
      ParseSnoc(init, c, base, small);
      TextSnoc(Parse(init, base, small), d, base, small);
    }
  }

  lemma TextOne(d: nat, base: nat, small: bool)
    requires 2 <= base <= 16 && d < base
    ensures Text(d, base, small) == [Alphabet(small)[d]]
  {
  }
}
