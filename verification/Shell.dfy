/** The shell's buffers: the edit line and the saved line as NUL-terminated arrays, and the history table. */
module Shell {
  import opened CString
  import opened ShellLine

  class Shell {
    const len: nat
    const histLen: nat
    const shellbuf: array<char>
    const savebuf: array<char>
    const shellhist: array<string>
    var shellptr: nat
    var histptr: int
    var histCount: nat
    var state: Ansi

    ghost predicate Shape()
      reads this, shellbuf, savebuf, shellhist
    {
      && len > 0 && histLen > 0
      && shellbuf != savebuf && shellbuf.Length == savebuf.Length == len + 1 && shellhist.Length == histLen
      && shellptr <= len && histCount <= histLen
      && savebuf[len] == '\0'
    }

    /** What the buffers hold. */
    ghost function Abs(): Line
      reads this, shellbuf, savebuf, shellhist
      requires Shape()
    {
      Line(len, histLen, shellbuf[..shellptr], CStr(savebuf[..]), shellhist[..histCount], histptr, state)
    }

    /** The line pointer is the length of the string in the buffer. */
    ghost predicate Valid()
      reads this, shellbuf, savebuf, shellhist
    {
      Shape() && Good(Abs()) && shellbuf[shellptr] == '\0'
    }

    constructor (n: nat, h: nat)
      requires n > 0 && h > 0
      ensures Valid() && fresh(shellbuf) && fresh(savebuf) && fresh(shellhist)
      ensures Abs() == Line(n, h, "", "", [], -1, SNone)
    {
      len, histLen := n, h;
      shellbuf := new char[n + 1](_ => '\0');
      savebuf := new char[n + 1](_ => '\0');
      shellhist := new string[h](_ => "");
      shellptr, histptr, histCount, state := 0, -1, 0, SNone;
    }

    lemma PointerIsLength()
      requires Valid()
      ensures CStr(shellbuf[..]) == shellbuf[..shellptr] && shellptr <= len - 1
    {
      CStrIs(shellbuf[..], shellbuf[..shellptr]);
    }

    /** `memmove(&shellhist[1], &shellhist[0], ...)`: overlapping, so from the top down. */
    method ShiftHistory(count: nat)
      requires count < shellhist.Length
      modifies shellhist
      ensures shellhist[1..count + 1] == old(shellhist[..count])
    {
      var i: nat := count;
      while i != 0
        invariant i <= count < shellhist.Length
        invariant forall j :: 0 <= j < i ==> shellhist[j] == old(shellhist[j])
        invariant forall j :: i < j <= count ==> shellhist[j] == old(shellhist[j - 1])
      {
        shellhist[i] := shellhist[i - 1];
        i := i - 1;
      }
    }

    method HistNewline()
      requires Valid()
      modifies this`shellptr, this`histptr, this`histCount, shellbuf, savebuf, shellhist
      ensures Valid() && Abs() == Enter(old(Abs()))
    {
      ghost var y := Abs();
      PointerIsLength();
      EnterKeepsGood(y);
      hide CStr;
      if shellptr == 0 {
        return;
      }
      var cmp := 1;
      if histCount > 0 {
        CStrIs(shellhist[0], y.hist[0]);
        cmp := Strcmp(shellhist[0], shellbuf[..]);
      }
      if cmp == 0 {
        shellptr := 0;
        shellbuf[0] := '\0';
        histptr := -1;
        return;
      }
      StoreLine();
    }

    /** Put the line at the front of the history and start an empty one. */
    method StoreLine()
      requires Shape() && 0 < shellptr && CStr(shellbuf[..]) == shellbuf[..shellptr]
      modifies this`shellptr, this`histptr, this`histCount, shellbuf, savebuf, shellhist
      ensures Shape() && shellptr == 0 && shellbuf[0] == '\0'
      ensures var y := old(Abs());
              var kept := if |y.hist| == y.histLen then y.hist[..|y.hist| - 1] else y.hist;
              Abs() == y.(hist := [y.text] + kept, text := "", at := -1, saved := "")
    {
      if histCount == histLen {
        histCount := histCount - 1;
      }
      ghost var text, kept := shellbuf[..shellptr], shellhist[..histCount];
      ShiftHistory(histCount);
      shellhist[0] := shellbuf[..shellptr];
      histCount := histCount + 1;
      assert shellhist[..histCount] == [text] + shellhist[1..histCount] == [text] + kept;
      shellptr := 0;
      shellbuf[0] := '\0';
      histptr := -1;
      savebuf[0] := '\0';
      CStrIs(savebuf[..], "");
    }

    /** Show a text in the edit line. */
    method Show(s: seq<char>)
      requires Shape() && FitsLine(CStr(s), len)
      modifies this`shellptr, shellbuf
      ensures Shape() && shellbuf[..shellptr] == CStr(s) && shellbuf[shellptr] == '\0'
      ensures savebuf[..] == old(savebuf[..])
    {
      Strncpy(shellbuf, s, len);
      shellbuf[len] := '\0';
      CStrIs(shellbuf[..], CStr(s));
      shellptr := Strlen(shellbuf);
    }

    method HistMove(direction: int)
      requires Valid()
      modifies this`shellptr, this`histptr, shellbuf, savebuf
      ensures Valid() && Abs() == if direction > 0 then Up(old(Abs())) else Down(old(Abs()))
    {
      hide CStr;
      ghost var y := Abs();
      PointerIsLength();
      MoveKeepsGood(y);
      if direction > 0 {
        if histptr == -1 {
          Strncpy(savebuf, shellbuf[..], len);
          CStrIs(savebuf[..], y.text);
        }
        var next := histptr + 1;
        if next >= histCount {
          return;
        }
        histptr := next;
        CStrIs(shellhist[histptr], y.hist[next]);
        Show(shellhist[histptr]);
      } else {
        if histptr == -1 {
          return;
        }
        var next := histptr - 1;
        if next < 0 {
          histptr := -1;
          Show(savebuf[..]);
        } else {
          histptr := next;
          CStrIs(shellhist[histptr], y.hist[next]);
          Show(shellhist[histptr]);
        }
      }
    }

    method KconsumerShell(character: char)
      requires Valid() && character != '\0'
      modifies this, shellbuf, savebuf, shellhist
      ensures Valid() && Abs() == Step(old(Abs()), Typed(character))
    {
      hide Good, CStr, Enter, Up, Down;
      ghost var y := Abs();
      StepKeepsGood(y, Typed(character));
      AnyModeIsGood(y);
      PointerIsLength();
      var c := character;
      if c == '\r' {
        c := '\n';
      }
      match state
      case SNone =>
        if c == ESC {
          state := SEsc;
          return;
        }
        if c == '\n' {
          HistNewline();
          return;
        }
        if c == BACKSPACE || c == DELETE {
          if shellptr <= 0 {
            return;
          }
          shellptr := shellptr - 1;
          shellbuf[shellptr] := '\0';
          assert shellbuf[..shellptr] == y.text[..|y.text| - 1];
          return;
        }
        if shellptr < len - 1 {
          shellbuf[shellptr] := c;
          shellptr := shellptr + 1;
          shellbuf[shellptr] := '\0';
          assert shellbuf[..shellptr] == y.text + [c];
        }
      case SEsc =>
        if c == '[' {
          state := SCsi;
        } else {
          state := SNone;
        }
      case SCsi =>
        state := SNone;
        if c == 'A' {
          HistMove(1);
        } else if c == 'B' {
          HistMove(-1);
        }
    }

    method KconsumerArrows(pressed: bool, keycode: nat)
      requires Valid()
      modifies this, shellbuf, savebuf, shellhist
      ensures Valid() && Abs() == Step(old(Abs()), Key(pressed, keycode))
    {
      if pressed {
        if keycode == KEY_UP {
          HistMove(1);
        } else if keycode == KEY_DOWN {
          HistMove(-1);
        }
      }
    }
  }
}
