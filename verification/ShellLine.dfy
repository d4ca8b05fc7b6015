/** The shell's edit line and history as values: what each key does. */
module ShellLine {

  const KEY_UP := 103
  const KEY_DOWN := 108
  const ESC := '\U{1B}'
  const BACKSPACE := '\U{08}'
  const DELETE := '\U{7F}'

  datatype Ansi = SNone | SEsc | SCsi

  /** The text being edited, the text saved when the live line was left, the history with the newest entry
      first, and the entry shown (-1 for the live line). */
  datatype Line = Line(len: nat, histLen: nat, text: string, saved: string, hist: seq<string>, at: int, ansi: Ansi)

  datatype Event = Typed(c: char) | Key(pressed: bool, code: nat)

  /** Carriage return counts as newline. */
  function Norm(c: char): char { if c == '\r' then '\n' else c }

  predicate IsEnter(y: Line, e: Event) { e.Typed? && y.ansi == SNone && Norm(e.c) == '\n' }

  // ---------------------------------------------------------------- one event

  /** Enter: empty lines and repetitions of the newest entry are not stored; a full history drops its oldest. */
  function Enter(y: Line): Line {
    if y.text == "" then y
    else if y.hist != [] && y.hist[0] == y.text then y.(text := "", at := -1)
    else
      var kept := if |y.hist| == y.histLen && |y.hist| > 0 then y.hist[..|y.hist| - 1] else y.hist;
      y.(hist := [y.text] + kept, text := "", at := -1, saved := "")
  }

  function Up(y: Line): Line {
    var z := if y.at == -1 then y.(saved := y.text) else y;
    if z.at + 1 >= |z.hist| || z.at < -1 then z else z.(at := z.at + 1, text := z.hist[z.at + 1])
  }

  function Down(y: Line): Line {
    if y.at <= -1 then y
    else if y.at - 1 < 0 || y.at > |y.hist| then y.(at := -1, text := y.saved)
    else y.(at := y.at - 1, text := y.hist[y.at - 1])
  }

  function Type(y: Line, c: char): Line {
    match y.ansi
    case SNone =>
      if c == ESC then y.(ansi := SEsc)
      else if c == '\n' then Enter(y)
      else if c == BACKSPACE || c == DELETE then
        (if y.text == "" then y else y.(text := y.text[..|y.text| - 1]))
      else if |y.text| < y.len - 1 then y.(text := y.text + [c])
      else y
    case SEsc => y.(ansi := if c == '[' then SCsi else SNone)
    case SCsi =>
      var z := y.(ansi := SNone);
      if c == 'A' then Up(z) else if c == 'B' then Down(z) else z
  }

  function Step(y: Line, e: Event): Line {
    match e
    case Typed(c) => Type(y, Norm(c))
    case Key(pressed, code) =>
      if !pressed then y else if code == KEY_UP then Up(y) else if code == KEY_DOWN then Down(y) else y
  }

  // ---------------------------------------------------------------- the invariant

  predicate FitsLine(s: string, len: nat) { |s| < len && '\0' !in s }

  /** Texts fit the buffer and hold no NUL, the history is within bounds, has no empty entry and no two equal
      neighbours, and the entry shown exists. */
  ghost predicate Good(y: Line) {
    && y.len > 0 && y.histLen > 0 && |y.hist| <= y.histLen
    && FitsLine(y.text, y.len) && FitsLine(y.saved, y.len)
    && -1 <= y.at < |y.hist|
    && (forall i :: 0 <= i < |y.hist| ==> FitsLine(y.hist[i], y.len) && y.hist[i] != "")
    && (forall i :: 0 <= i < |y.hist| - 1 ==> y.hist[i] != y.hist[i + 1])
  }

  predicate Printable(e: Event) { e.Typed? ==> e.c != '\0' }

  lemma StepKeepsGood(y: Line, e: Event)
    requires Good(y) && Printable(e)
    ensures Good(Step(y, e))
    ensures Step(y, e).len == y.len && Step(y, e).histLen == y.histLen
  {
    if e.Typed? { TypeKeepsGood(y, Norm(e.c)); } else { MoveKeepsGood(y); }
    hide Good, Type, Up, Down;
  }

  lemma TypeKeepsGood(y: Line, c: char)
    requires Good(y) && c != '\0'
    ensures Good(Type(y, c)) && Type(y, c).len == y.len && Type(y, c).histLen == y.histLen
  {
    forall a: Ansi ensures Good(y.(ansi := a)) { }
    MoveKeepsGood(y.(ansi := SNone));
    EnterKeepsGood(y);
    EditKeepsGood(y, c);
    hide Good, Up, Down, Enter;
  }

  lemma AnyModeIsGood(y: Line)
    requires Good(y)
    ensures Good(y.(ansi := SNone))
  {
  }

  lemma EditKeepsGood(y: Line, c: char)
    requires Good(y) && c != '\0'
    ensures y.text != "" ==> Good(y.(text := y.text[..|y.text| - 1]))
    ensures |y.text| < y.len - 1 ==> Good(y.(text := y.text + [c]))
  {
  }

  lemma MoveKeepsGood(y: Line)
    requires Good(y)
    ensures Good(Up(y)) && Up(y).len == y.len && Up(y).histLen == y.histLen
    ensures Good(Down(y)) && Down(y).len == y.len && Down(y).histLen == y.histLen
  {
  }

  lemma EnterKeepsGood(y: Line)
    requires Good(y)
    ensures Good(Enter(y)) && Enter(y).len == y.len && Enter(y).histLen == y.histLen
  {
  }

  function Run(y: Line, es: seq<Event>): Line
    decreases es
  {
    if es == [] then y else Run(Step(y, es[0]), es[1..])
  }

  lemma {:induction false} RunKeepsGood(y: Line, es: seq<Event>)
    requires Good(y) && forall e :: e in es ==> Printable(e)
    ensures Good(Run(y, es))
    decreases es
  {
    if es != [] {
      StepKeepsGood(y, es[0]);
      RunKeepsGood(Step(y, es[0]), es[1..]);
    }
  }

  // ---------------------------------------------------------------- typing

  /** A character that is neither a control character of the line nor NUL. */
  predicate IsPlain(c: char) { c !in ['\0', '\n', '\r', '\U{08}', '\U{1B}', '\U{7F}'] }

  function Keys(s: string): seq<Event> {
    if s == "" then [] else [Typed(s[0])] + Keys(s[1..])
  }

  lemma PlainStep(y: Line, c: char)
    requires y.ansi == SNone && IsPlain(c)
    ensures Step(y, Typed(c)) == if |y.text| + 1 < y.len then y.(text := y.text + [c]) else y
  {
    hide Up, Down, Enter;
  }

  lemma RunCons(y: Line, e: Event, es: seq<Event>)
    ensures Run(y, [e] + es) == Run(Step(y, e), es)
  {
    hide Step;
    assert ([e] + es)[1..] == es;
  }

  /** What is typed appears after what was there, as long as it fits. */
  lemma {:induction false} TypingShows(y: Line, s: string)
    requires y.ansi == SNone && (forall c :: c in s ==> IsPlain(c)) && |y.text| + |s| < y.len
    ensures Run(y, Keys(s)) == y.(text := y.text + s)
    decreases |s|
  {
    if s == "" {
      assert y.text + s == y.text;
    } else {
      hide Step, IsPlain, Run;
      var z := y.(text := y.text + [s[0]]);
      PlainStep(y, s[0]);
      RunCons(y, Typed(s[0]), Keys(s[1..]));
      TypingShows(z, s[1..]);
      assert y.text + s == z.text + s[1..];
    }
  }

  /** Backspace and delete take back the character just typed, and do nothing to an empty line. */
  lemma TypeThenErase(y: Line, c: char, erase: char)
    requires y.ansi == SNone && IsPlain(c) && |y.text| + 1 < y.len && erase in ['\U{08}', '\U{7F}']
    ensures Step(Step(y, Typed(c)), Typed(erase)) == y
    ensures y.text == "" ==> Step(y, Typed(erase)) == y
  {
    assert (y.text + [c])[..|y.text|] == y.text;
  }

  /** A line that is typed and entered becomes the newest entry of the history, which keeps its capacity, and one
      move up shows it again. */
  lemma EnterStores(y: Line, s: string, enter: char)
    requires Good(y) && y.ansi == SNone && y.text == "" && 0 < |s| < y.len && (forall c :: c in s ==> IsPlain(c))
    requires enter in ['\n', '\r'] && (y.hist == [] || y.hist[0] != s)
    ensures var z := Step(Run(y, Keys(s)), Typed(enter));
            && z.text == "" && z.at == -1
            && z.hist == [s] + (if |y.hist| < y.histLen then y.hist else y.hist[..y.histLen - 1])
            && Step(z, Key(true, 103)).text == s
            && Step(Step(z, Key(true, 103)), Key(true, 108)).text == ""
  {
    TypingShows(y, s);
    assert y.text + s == s;
  }

  /** An empty line and a repetition leave the history as it was. */
  lemma EnterSkips(y: Line, s: string, enter: char)
    requires Good(y) && y.ansi == SNone && y.text == "" && |s| < y.len && (forall c :: c in s ==> IsPlain(c))
    requires enter in ['\n', '\r'] && (s == "" || (y.hist != [] && y.hist[0] == s))
    ensures var z := Step(Run(y, Keys(s)), Typed(enter)); z.text == "" && z.hist == y.hist
  {
    TypingShows(y, s);
    assert y.text + s == s;
  }

  /** The escape sequences of a terminal do what the arrow keys do; a released key does nothing. */
  lemma EscapesAreArrows(y: Line)
    requires y.ansi == SNone
    ensures Run(y, [Typed('\U{1B}'), Typed('['), Typed('A')]) == Step(y, Key(true, 103))
    ensures Run(y, [Typed('\U{1B}'), Typed('['), Typed('B')]) == Step(y, Key(true, 108))
    ensures forall code :: Step(y, Key(false, code)) == y
  {
    hide Up, Down, Enter;
    ThreeSteps(y, Typed('\U{1B}'), Typed('['), Typed('A'));
    ThreeSteps(y, Typed('\U{1B}'), Typed('['), Typed('B'));
    assert y.(ansi := SEsc).(ansi := SCsi).(ansi := SNone) == y;
  }

  lemma ThreeSteps(y: Line, a: Event, b: Event, c: Event)
    ensures Run(y, [a, b, c]) == Step(Step(Step(y, a), b), c)
  {
    hide Step;
    assert [a, b, c][1..] == [b, c] && [b, c][1..] == [c] && [c][1..] == [];
    assert Run(Step(Step(y, a), b), [c]) == Step(Step(Step(y, a), b), c);
  }

  // ---------------------------------------------------------------- leaving the live line and coming back

  /** Between leaving and returning: no Enter, and an older entry is shown all along. */
  predicate StaysAway(y: Line, es: seq<Event>)
    decreases es
  {
    y.at >= 0 && (es == [] || (!IsEnter(y, es[0]) && StaysAway(Step(y, es[0]), es[1..])))
  }

  lemma AwayKeepsSaved(y: Line, e: Event)
    requires Good(y) && y.at >= 0 && !IsEnter(y, e)
    ensures Step(y, e).saved == y.saved && Step(y, e).hist == y.hist
    ensures Step(y, e).at == -1 ==> Step(y, e).text == y.saved
  {
  }

  lemma {:induction false} SavedThroughout(y: Line, es: seq<Event>)
    requires Good(y) && (forall e :: e in es ==> Printable(e)) && StaysAway(y, es)
    ensures Run(y, es).saved == y.saved && Run(y, es).at >= 0 && Good(Run(y, es))
    decreases es
  {
    if es != [] {
      AwayKeepsSaved(y, es[0]);
      StepKeepsGood(y, es[0]);
      SavedThroughout(Step(y, es[0]), es[1..]);
    }
  }

  /** Leave the live line, edit and move about without Enter, and return: the text is as it was on leaving. */
  lemma ExcursionRestoresText(y: Line, leave: Event, es: seq<Event>, back: Event)
    requires Good(y) && y.at == -1 && Printable(leave) && Printable(back) && forall e :: e in es ==> Printable(e)
    requires !IsEnter(y, leave) && StaysAway(Step(y, leave), es)
    requires var z := Run(Step(y, leave), es); !IsEnter(z, back) && Step(z, back).at == -1
    ensures Step(Run(Step(y, leave), es), back).text == y.text
  {
    var x := Step(y, leave);
    StepKeepsGood(y, leave);
    assert x.saved == y.text;
    SavedThroughout(x, es);
    AwayKeepsSaved(Run(x, es), back);
  }

  /** Moving up and straight down again shows the same text, wherever the line was untouched since. */
  lemma UpThenDown(y: Line)
    requires Good(y) && (y.at >= 0 ==> y.text == y.hist[y.at])
    ensures y.at + 1 < |y.hist| ==> Down(Up(y)).text == y.text && Down(Up(y)).at == y.at
  {
  }
}
