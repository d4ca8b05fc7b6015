/** `__int_str`: sign, digits and padding written into a zeroed buffer. */
module IntStr {
  import opened Words
  import opened Arithmetic
  import opened CString
  import opened Digits

  const INT_MIN := -0x8000_0000_0000_0000
  const INT_MAX := 0x7FFF_FFFF_FFFF_FFFF

  // ---------------------------------------------------------------- what is printed

  predicate Supported(base: nat) { base in {8, 10, 16, 17} }

  /** Base 17 stands for 16 with small letters. */
  function Radix(base: nat): nat { if base == 17 then 16 else base }

  function Small(base: nat): bool { base == 17 }

  function Abs(value: int): nat { if value < 0 then -value else value }

  function Sign(value: int, plus: bool, space: bool): string {
    if value < 0 then "-" else if plus then "+" else if space then " " else ""
  }

  /** The text before padding. */
  function Natural(value: int, base: nat, plus: bool, space: bool): string
    requires Supported(base)
  {
    Sign(value, plus, space) + Text(Abs(value), Radix(base), Small(base))
  }

  /** Read a signed number. */
  function ParseSigned(s: string, base: nat): int
    requires Supported(base)
  {
    if s == "" then 0
    else if s[0] == '-' then -(Parse(s[1..], Radix(base), Small(base)) as int)
    else if s[0] == '+' || s[0] == ' ' then Parse(s[1..], Radix(base), Small(base))
    else Parse(s, Radix(base), Small(base))
  }

  /** What is printed reads back as the value, for every value and base. */
  lemma PrintThenParse(value: int, base: nat, plus: bool, space: bool)
    requires Supported(base)
    ensures ParseSigned(Natural(value, base, plus, space), base) == value
  {
    hide Parse, Text, ValueOf, AllDigits;
    var t := Text(Abs(value), Radix(base), Small(base));
    TextParses(Abs(value), Radix(base), Small(base));
    var s := Natural(value, base, plus, space);
    NoSign(t, Radix(base), Small(base));
    if Sign(value, plus, space) != "" {
      assert s[1..] == t;
    } else {
      assert s == t;
    }
  }

  /** The digits of a base, as characters. */
  function DigitsFor(base: nat): string {
    if base == 8 then "01234567" else if base == 16 then "0123456789ABCDEF"
    else if base == 17 then "0123456789abcdef" else "0123456789"
  }

  /** What is printed: a minus sign for a negative number, else the sign asked for, plus before blank; then the
      magnitude in the digits of the base. */
  lemma PrintedForm(value: int, base: nat, plus: bool, space: bool)
    requires Supported(base)
    ensures var s := Natural(value, base, plus, space);
            var sign := if value < 0 then "-" else if plus then "+" else if space then " " else "";
            && |sign| < |s| && s[..|sign|] == sign
            && var t := s[|sign|..];
               && (forall i :: 0 <= i < |t| ==> t[i] in DigitsFor(base))
               && Parse(t, |DigitsFor(base)|, base == 17) == (if value < 0 then -value else value)
  {
    hide Parse, Text, ValueOf;
    var t := Text(Abs(value), Radix(base), Small(base));
    TextParses(Abs(value), Radix(base), Small(base));
    var s := Natural(value, base, plus, space);
    assert s[|Sign(value, plus, space)|..] == t;
    forall i | 0 <= i < |t| ensures t[i] in DigitsFor(base) {
      DigitChar(t[i], Radix(base), Small(base), base);
    }
  }

  lemma DigitChar(c: char, radix: nat, small: bool, base: nat)
    requires Supported(base) && radix == Radix(base) && small == Small(base) && ValueOf(c, small) < radix
    ensures c in DigitsFor(base)
  {
    assert DigitsFor(base)[ValueOf(c, small)] == c;
  }

  lemma NoSign(t: string, radix: nat, small: bool)
    requires t != [] && AllDigits(t, radix, small) && radix <= 16
    ensures t[0] != '-' && t[0] != '+' && t[0] != ' '
  {
  }

  function Pow8(k: nat): nat { if k == 0 then 1 else 8 * Pow8(k - 1) }

  lemma {:induction false} TextIsShort(m: nat, base: nat, small: bool, k: nat)
    requires 8 <= base <= 16 && k > 0 && m < Pow8(k)
    ensures |Text(m, base, small)| <= k
    decreases k
  {
    assert Pow8(1) == 8 * Pow8(0);
    if m >= base {
      AtMostAnEighth(m, base);
      TextIsShort(m / base, base, small, k - 1);
    }
  }

  lemma AtMostAnEighth(m: nat, base: nat)
    requires base >= 8
    ensures 8 * (m / base) <= m
  {
    var q := m / base;
    assert m == base * q + m % base;
    assert base * q == 8 * q + (base - 8) * q;
    MultipleIsLarge(q, base - 8);
  }

  /** No 64-bit value needs more than 23 characters. */
  lemma NaturalIsShort(value: int, base: nat, plus: bool, space: bool)
    requires Supported(base) && INT_MIN <= value <= INT_MAX
    ensures 0 < |Natural(value, base, plus, space)| <= 23
    ensures '\0' !in Natural(value, base, plus, space)
  {
    assert Pow8(4) == 4096;
    assert Pow8(8) == 4096 * 4096 by { assert Pow8(8) == 8 * 8 * Pow8(6) && Pow8(6) == 8 * 8 * Pow8(4); }
    assert Pow8(12) == 4096 * Pow8(8) by { assert Pow8(12) == 8 * 8 * Pow8(10) && Pow8(10) == 8 * 8 * Pow8(8); }
    assert Pow8(16) == 4096 * Pow8(12) by { assert Pow8(16) == 8 * 8 * Pow8(14) && Pow8(14) == 8 * 8 * Pow8(12); }
    assert Pow8(20) == 4096 * Pow8(16) by { assert Pow8(20) == 8 * 8 * Pow8(18) && Pow8(18) == 8 * 8 * Pow8(16); }
    assert Pow8(22) == 64 * Pow8(20) by { assert Pow8(22) == 8 * Pow8(21); }
    TextIsShort(Abs(value), Radix(base), Small(base), 22);
    TextParses(Abs(value), Radix(base), Small(base));
    NoNul(Text(Abs(value), Radix(base), Small(base)), Radix(base), Small(base));
  }

  lemma NoNul(t: string, radix: nat, small: bool)
    requires AllDigits(t, radix, small) && radix <= 16
    ensures '\0' !in t
  {
    forall i | 0 <= i < |t| ensures t[i] != '\0' {
      assert ValueOf(t[i], small) < radix;
    }
  }

  function Repeat(c: char, n: nat): (s: string)
    ensures |s| == n && forall i :: 0 <= i < n ==> s[i] == c
  {
    seq<char>(n, _ => c)
  }

  predicate IsInt(n: int) { -0x8000_0000 <= n < 0x8000_0000 }

  /** How much is filled up: the width less the length, as an unsigned difference made signed, if positive. */
  function Fill(width: int, length: nat): nat {
    var padding := AsSigned((width - length) % WORD_LIMIT);
    if padding < 0 then 0 else padding
  }

  /** That is what the width lacks exactly when the difference does not wrap. */
  lemma FillIsLack(width: int, length: nat)
    requires IsInt(width) && length < 0x8000_0000
    ensures Fill(width, length) == (if width > length then width - length else 0)
            <==> width >= -0x8000_0000 + length
  {
  }

  /** The least width asks for more than any buffer holds. */
  lemma LeastWidthWraps()
    ensures Fill(-0x8000_0000, |Natural(5, 10, false, false)|) == 0x7FFF_FFFF
  {
    assert Text(5, 10, false) == ['5'];
  }

  /** Fill up to the width with blanks or zeros, on the right when left-justified, else on the left, before any
      sign. */
  function Padded(s: string, width: int, justify: bool, zeroPad: bool): string {
    var pad := Repeat(if zeroPad then '0' else ' ', Fill(width, |s|));
    if justify then s + pad else pad + s
  }

  function StripLeft(s: string): string {
    if s != [] && s[0] == ' ' then StripLeft(s[1..]) else s
  }

  function StripRight(s: string): string {
    if s != [] && s[|s| - 1] == ' ' then StripRight(s[..|s| - 1]) else s
  }

  lemma {:induction false} StripPad(s: string, k: nat)
    requires s != [] && s[|s| - 1] != ' '
    ensures StripLeft(Repeat(' ', k) + s) == StripLeft(s)
    ensures StripRight(s + Repeat(' ', k)) == s
    decreases k
  {
    var l, r := Repeat(' ', k) + s, s + Repeat(' ', k);
    if k > 0 {
      StripPad(s, k - 1);
      assert l[1..] == Repeat(' ', k - 1) + s;
      assert r[..|r| - 1] == s + Repeat(' ', k - 1);
    } else {
      assert l == s && r == s;
    }
  }

  /** With blanks as padding the number is still there to be read, and the field is as wide as asked, or as the
      number needs, exactly when the difference of the two does not wrap. */
  lemma PaddedRoundTrip(value: int, base: nat, plus: bool, space: bool, width: int, justify: bool)
    requires Supported(base) && INT_MIN <= value <= INT_MAX && IsInt(width)
    ensures var s := Natural(value, base, plus, space);
            var f := Padded(s, width, justify, false);
            && (|f| == (if width > |s| then width else |s|) <==> width >= -0x8000_0000 + |s|)
            && ParseSigned(if justify then StripRight(f) else StripLeft(f), base) == value
  {
    var s, t := Natural(value, base, plus, space), Text(Abs(value), Radix(base), Small(base));
    TextParses(Abs(value), Radix(base), Small(base));
    NoBlank(t, Radix(base), Small(base));
    PrintThenParse(value, base, plus, space);
    PrintThenParse(value, base, plus, false);
    NaturalIsShort(value, base, plus, space);
    FillIsLack(width, |s|);
    StripPad(s, Fill(width, |s|));
    assert s[|s| - 1] == t[|t| - 1];
    if s[0] == ' ' { assert s[1..] == t == Natural(value, base, plus, false); }
  }

  // ---------------------------------------------------------------- zeros as padding

  /** An optional sign and then nothing but digits. */
  predicate IsNumeral(s: string, base: nat)
    requires Supported(base)
  {
    var t := if s != "" && s[0] in {'-', '+', ' '} then s[1..] else s;
    t != "" && AllDigits(t, Radix(base), Small(base))
  }

  lemma {:induction false} ZerosBefore(k: nat, t: string, radix: nat, small: bool)
    ensures Parse(Repeat('0', k) + t, radix, small) == Parse(t, radix, small)
    decreases |t|, k
  {
    hide Parse;
    var f := Repeat('0', k) + t;
    if t != [] {
      var init, c := t[..|t| - 1], t[|t| - 1];
      ZerosBefore(k, init, radix, small);
      assert f == (Repeat('0', k) + init) + [c] && t == init + [c];
      ParseSnoc(Repeat('0', k) + init, c, radix, small);
      ParseSnoc(init, c, radix, small);
    } else if k > 0 {
      ZerosBefore(k - 1, [], radix, small);
      assert f == (Repeat('0', k - 1) + []) + ['0'];
      ParseSnoc(Repeat('0', k - 1) + [], '0', radix, small);
      ParseNothing(radix, small);
    } else {
      assert f == [];
    }
  }

  lemma ParseNothing(radix: nat, small: bool)
    ensures Parse([], radix, small) == 0
  {
  }

  lemma {:induction false} ZerosAfter(t: string, k: nat, radix: nat, small: bool)
    requires radix >= 2
    ensures var n, m := Parse(t, radix, small), Parse(t + Repeat('0', k), radix, small);
            if k == 0 || n == 0 then m == n else m > n
    decreases k
  {
    hide Parse;
    var f := t + Repeat('0', k);
    if k > 0 {
      ZerosAfter(t, k - 1, radix, small);
      assert f == (t + Repeat('0', k - 1)) + ['0'];
      ParseSnoc(t + Repeat('0', k - 1), '0', radix, small);
      MultipleIsLarge(Parse(t + Repeat('0', k - 1), radix, small), radix);
    } else {
      assert f == t;
    }
  }

  /** Zeros on the left give a numeral, and then one that reads back as the value, exactly when there is no sign
      for them to precede. */
  lemma ZeroPadBefore(value: int, base: nat, plus: bool, space: bool, width: int)
    requires Supported(base)
    ensures var s := Natural(value, base, plus, space);
            var f := Padded(s, width, false, true);
            && (IsNumeral(f, base) <==> Fill(width, |s|) == 0 || Sign(value, plus, space) == "")
            && (IsNumeral(f, base) ==> ParseSigned(f, base) == value)
  {
    hide Parse, Text;
    var radix, small := Radix(base), Small(base);
    var s, t := Natural(value, base, plus, space), Text(Abs(value), radix, small);
    var k := Fill(width, |s|);
    var f := Padded(s, width, false, true);
    TextParses(Abs(value), radix, small);
    PrintThenParse(value, base, plus, space);
    NoSign(t, radix, small);
    ZerosBefore(k, t, radix, small);
    if k == 0 {
      assert f == s;
      assert t == if Sign(value, plus, space) == "" then s else s[1..];
    } else {
      assert f[0] == '0' && f[k] == s[0];
      if Sign(value, plus, space) == "" {
        assert s == t && f == Repeat('0', k) + t;
      } else {
        assert ValueOf(f[k], small) == 16;
      }
    }
  }

  /** For example, -5 in a field of four. */
  lemma ZeroPadMinusFive()
    ensures Padded(Natural(-5, 10, false, false), 4, false, true) == "00-5"
    ensures Padded(Natural(-5, 10, false, false), 4, true, true) == "-500"
  {
    assert Text(5, 10, false) == ['5'];
    assert Natural(-5, 10, false, false) == "-5";
    assert Repeat('0', 2) == "00";
  }

  /** Zeros on the right always give a numeral, but of the same value only if there are none or it is 0. */
  lemma ZeroPadAfter(value: int, base: nat, plus: bool, space: bool, width: int)
    requires Supported(base)
    ensures var s := Natural(value, base, plus, space);
            var f := Padded(s, width, true, true);
            && IsNumeral(f, base)
            && (ParseSigned(f, base) == value <==> Fill(width, |s|) == 0 || value == 0)
  {
    hide Parse, Text;
    var radix, small := Radix(base), Small(base);
    var s, t := Natural(value, base, plus, space), Text(Abs(value), radix, small);
    var k := Fill(width, |s|);
    var f := Padded(s, width, true, true);
    TextParses(Abs(value), radix, small);
    NoSign(t, radix, small);
    ZerosAfter(t, k, radix, small);
    assert (if Sign(value, plus, space) == "" then f else f[1..]) == t + Repeat('0', k);
  }

  lemma NoBlank(t: string, radix: nat, small: bool)
    requires t != [] && AllDigits(t, radix, small) && radix <= 16
    ensures t[0] != ' ' && t[|t| - 1] != ' '
  {
    assert ValueOf(t[0], small) < radix && ValueOf(t[|t| - 1], small) < radix;
  }

  // ---------------------------------------------------------------- buffers

  /** The buffer holds a string and nothing but zeros after it. */
  predicate Contains(b: seq<char>, s: string) {
    |s| < |b| && b[..|s|] == s && '\0' !in s && forall i :: |s| <= i < |b| ==> b[i] == '\0'
  }

  lemma ContainsAt(b: seq<char>, s: string, i: nat)
    requires Contains(b, s) && i <= |s|
    ensures b[i] == '\0' <==> i == |s|
    ensures i < |s| ==> b[i] == s[i]
  {
    if i < |s| { assert b[..|s|][i] == s[i]; }
  }

  lemma ContainsIs(b: seq<char>, s: string)
    requires Contains(b, s)
    ensures CStr(b) == s && b[|s|] == '\0'
  {
    CStrIs(b, s);
  }

  /** `b[strlen(b)] = c` */
  method AppendChar(b: array<char>, c: char, ghost s: string)
    requires Contains(b[..], s) && |s| + 1 < b.Length && c != '\0'
    modifies b
    ensures Contains(b[..], s + [c])
  {
    ContainsIs(b[..], s);
    var n := Strlen(b);
    b[n] := c;
    assert b[..][..n] == s;
  }

  method AppendPad(b: array<char>, padding: nat, c: char, ghost s: string)
    requires Contains(b[..], s) && |s| + padding < b.Length && c != '\0'
    modifies b
    ensures Contains(b[..], s + Repeat(c, padding))
  {
    assert s + Repeat(c, 0) == s;
    for i := 0 to padding
      invariant Contains(b[..], s + Repeat(c, i))
    {
      AppendChar(b, c, s + Repeat(c, i));
      assert s + Repeat(c, i) + [c] == s + Repeat(c, i + 1);
    }
  }

  /** `strcat(a, b)` */
  method Strcat(a: array<char>, b: array<char>, ghost s: string, ghost t: string)
    requires a != b && Contains(a[..], s) && Contains(b[..], t) && |s| + |t| < a.Length
    modifies a
    ensures Contains(a[..], s + t)
  {
    ContainsIs(a[..], s);
    var n := Strlen(a);
    var i := 0;
    assert s + t[..0] == s;
    while b[i] != '\0'
      invariant i <= |t| && Contains(a[..], s + t[..i])
      decreases |t| - i
    {
      ContainsAt(b[..], t, i);
      a[n + i] := b[i];
      assert a[..][..n + i] == s + t[..i];
      assert s + t[..i + 1] == s + t[..i] + [t[i]];
      i := i + 1;
    }
    ContainsAt(b[..], t, i);
    assert t[..i] == t;
  }

  /** `strcpy(b, a)`, onto a string that is no longer */
  method Strcpy(b: array<char>, a: array<char>, ghost s: string, ghost t: string)
    requires a != b && Contains(a[..], s) && Contains(b[..], t) && |t| <= |s| < b.Length
    modifies b
    ensures Contains(b[..], s)
  {
    var i := 0;
    while a[i] != '\0'
      invariant i <= |s| && b[..i] == s[..i]
      invariant forall j :: |s| <= j < b.Length ==> b[j] == '\0'
      decreases |s| - i
    {
      ContainsAt(a[..], s, i);
      b[i] := a[i];
      i := i + 1;
    }
    ContainsAt(a[..], s, i);
    b[i] := '\0';
    assert b[..][..|s|] == b[..i] == s;
  }

  // ---------------------------------------------------------------- the code

  /** The first digit loop: how many digits the magnitude needs. */
  method CountDigits(magnitude: nat, base: nat, ghost small: bool) returns (n: nat)
    requires 2 <= base <= 16
    ensures n == |Text(magnitude, base, small)|
  {
    var shifter: nat := magnitude / base;
    n := 1;
    QuotientText(magnitude, base, small);
    while shifter != 0
      invariant |Text(magnitude, base, small)| == n + (if shifter == 0 then 0 else |Text(shifter, base, small)|)
      decreases shifter
    {
      QuotientText(shifter, base, small);
      n := n + 1;
      shifter := shifter / base;
    }
  }

  lemma QuotientText(m: nat, base: nat, small: bool)
    requires 2 <= base <= 16
    ensures m < base ==> m / base == 0
    ensures m >= base ==> 0 < m / base < m
    ensures Text(m, base, small) ==
            (if m / base == 0 then [] else Text(m / base, base, small)) + [Alphabet(small)[m % base]]
  {
    hide Alphabet;
    if m >= base {
      DivisionShrinks(m, base);
    } else {
      DivMod(0, base, m);
    }
  }

  /** The second digit loop: the digits written backwards from `end`. */
  method WriteDigits(b: array<char>, magnitude: nat, base: nat, small: bool, end: nat)
    requires 2 <= base <= 16 && |Text(magnitude, base, small)| <= end < b.Length
    modifies b
    ensures var n := |Text(magnitude, base, small)|;
            && b[end - n..end] == Text(magnitude, base, small)
            && b[..end - n] == old(b[..end - n]) && b[end..] == old(b[end..])
  {
    hide Alphabet;
    ghost var text, start := Text(magnitude, base, small), end - |Text(magnitude, base, small)|;
    var p: nat, m: nat := end, magnitude;
    var more := true;
    while more
      invariant start <= p <= end && (more || m == 0)
      invariant more ==> p - start == |Text(m, base, small)| && text == Text(m, base, small) + b[p..end]
      invariant !more ==> p == start && text == b[p..end]
      invariant b[..start] == old(b[..start]) && b[end..] == old(b[end..])
      decreases more, m
    {
      QuotientText(m, base, small);
      ghost var tail := b[p..end];
      p := p - 1;
      b[p] := Alphabet(small)[m % base];
      assert b[p..end] == [Alphabet(small)[m % base]] + tail;
      m := m / base;
      more := m != 0;
    }
  }

  /** The field fits the buffer, and the scratch array if it is built there. */
  predicate HasRoom(size: nat, length: nat, width: int, justify: bool) {
    length + Fill(width, length) < size && (justify || length + Fill(width, length) < 256)
  }

  /** A buffer of 256 has room exactly for widths below 256 that do not wrap. */
  lemma RoomForWidth(length: nat, width: int, justify: bool)
    requires IsInt(width) && 0 < length <= 23
    ensures HasRoom(256, length, width, justify) <==> -0x8000_0000 + length <= width < 256
  {
  }

  method IntStr(value: int, b: array<char>, base: nat, plus: bool, space: bool, paddingNo: int, justify: bool,
                zeroPad: bool)
    requires INT_MIN <= value <= INT_MAX && Supported(base)
    requires b.Length > 23 && IsInt(paddingNo)
    requires HasRoom(b.Length, |Natural(value, base, plus, space)|, paddingNo, justify)
    requires forall i :: 0 <= i < b.Length ==> b[i] == '\0'
    modifies b
    ensures Contains(b[..], Padded(Natural(value, base, plus, space), paddingNo, justify, zeroPad))
  {
    NaturalIsShort(value, base, plus, space);
    WriteNumber(value, b, base, plus, space);
    Pad(b, paddingNo, justify, if zeroPad then '0' else ' ', Natural(value, base, plus, space));
  }

  /** The sign; the magnitude of the most negative value is computed without overflow. */
  method WriteSign(value: int, b: array<char>, plus: bool, space: bool) returns (p: nat, magnitude: nat)
    requires INT_MIN <= value <= INT_MAX && b.Length > 1
    modifies b
    ensures p == |Sign(value, plus, space)| <= 1 && magnitude == Abs(value)
    ensures b[..p] == Sign(value, plus, space)
    ensures forall i :: p <= i < b.Length ==> b[i] == old(b[i])
  {
    p := 0;
    if value < 0 {
      b[p] := '-';
      p := p + 1;
      magnitude := -(value + 1) + 1;
    } else {
      if plus {
        b[p] := '+';
        p := p + 1;
      } else if space {
        b[p] := ' ';
        p := p + 1;
      }
      magnitude := value;
    }
  }

  method WriteNumber(value: int, b: array<char>, base: nat, plus: bool, space: bool)
    requires INT_MIN <= value <= INT_MAX && Supported(base) && b.Length > 23
    requires forall i :: 0 <= i < b.Length ==> b[i] == '\0'
    modifies b
    ensures Contains(b[..], Natural(value, base, plus, space))
  {
    hide Text;
    NaturalIsShort(value, base, plus, space);
    var small, radix := base == 17, if base == 17 then 16 else base;
    var sign, magnitude := WriteSign(value, b, plus, space);
    var n := CountDigits(magnitude, radix, small);
    var p := sign + n;
    b[p] := '\0';
    ghost var after := b[p..];
    assert forall i :: 0 <= i < |after| ==> after[i] == '\0';
    WriteDigits(b, magnitude, radix, small, p);
    assert b[..][..p] == b[..sign] + b[sign..p];
    assert b[..sign] == Sign(value, plus, space);
    forall i | p <= i < b.Length ensures b[i] == '\0' {
      assert b[i] == b[p..][i - p] == after[i - p];
    }
  }

  lemma PaddedAs(s: string, width: int, justify: bool, fill: char)
    requires fill in {'0', ' '}
    ensures var pad := Repeat(fill, Fill(width, |s|));
            && |pad| == Fill(width, |s|)
            && Padded(s, width, justify, fill == '0') == if justify then s + pad else pad + s
  {
  }

  lemma ContainsNothing(s: seq<char>)
    requires s != [] && forall i :: 0 <= i < |s| ==> s[i] == '\0'
    ensures Contains(s, "")
  {
    assert s[..0] == "";
  }

  /** The padding built in a scratch array, the text appended there, and all of it copied back. */
  method PrependPad(b: array<char>, padding: nat, c: char, ghost s: string)
    requires Contains(b[..], s) && padding + |s| < b.Length && padding + |s| < 256 && c != '\0'
    modifies b
    ensures Contains(b[..], Repeat(c, padding) + s)
  {
    hide Contains;
    var a := new char[256](_ => '\0');
    ContainsNothing(a[..]);
    AppendPad(a, padding, c, "");
    ghost var pad := Repeat(c, padding);
    assert "" + pad == pad;
    Strcat(a, b, pad, s);
    Strcpy(b, a, pad + s, s);
  }

  method Pad(b: array<char>, paddingNo: int, justify: bool, fill: char, ghost s: string)
    requires Contains(b[..], s) && 0 < |s| <= 23 < b.Length && IsInt(paddingNo)
    requires HasRoom(b.Length, |s|, paddingNo, justify)
    requires fill in {'0', ' '}
    modifies b
    ensures Contains(b[..], Padded(s, paddingNo, justify, fill == '0'))
  {
    hide Contains, Repeat, Padded;
    ContainsIs(b[..], s);
    PaddedAs(s, paddingNo, justify, fill);
    var length := Strlen(b);
    var padding := AsSigned((paddingNo - length) % WORD_LIMIT);
    if padding < 0 {
      padding := 0;
    }
    if justify {
      AppendPad(b, padding, fill, s);
    } else {
      PrependPad(b, padding, fill, s);
    }
  }
}
