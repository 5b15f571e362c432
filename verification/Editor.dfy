/**
 * The line editor (src/drivers/repl.rs): printable keys, backspace, Ctrl-U and
 * Ctrl-C, with the echo that keeps the screen in step with the buffer.
 */
module Editor {
  import opened Uart

  const LINE_MAX := 128
  const PROMPT := "holy> "
  const BACKSPACE := 8 as char
  const DEL := 0x7F as char
  const CTRL_U := 0x15 as char
  const CTRL_C := 3 as char
  const ERASE := [BACKSPACE, ' ', BACKSPACE]

  datatype Phase = Idle | Reading | Evaluating | Printing

  predicate IsPrintable(c: char) {
    ' ' <= c <= '~'
  }

  predicate EndsLine(c: char) {
    c == '\r' || c == '\n'
  }

  function Erasures(n: nat): string {
    if n == 0 then "" else Erasures(n - 1) + ERASE
  }

  /** What one key makes of the line, what it echoes, and where the console goes next. */
  datatype Edit = Edit(line: string, echo: string, phase: Phase)

  function Edited(line: string, key: char): Edit {
    if EndsLine(key) then Edit(line, "\r\n", Evaluating)
    else if key == BACKSPACE || key == DEL then
      if line == "" then Edit(line, "", Reading) else Edit(line[..|line| - 1], ERASE, Reading)
    else if key == CTRL_U then Edit("", Erasures(|line|), Reading)
    else if key == CTRL_C then Edit("", "^C\r\n" + PROMPT, Idle)
    else if key == '\t' then Inserted(line, ' ')
    else if IsPrintable(key) then Inserted(line, key)
    else Edit(line, "", Reading)
  }

  function Inserted(line: string, c: char): Edit {
    if |line| < LINE_MAX then Edit(line + [c], [c], Reading) else Edit(line, "", Reading)
  }

  class LineEditor {
    const buf: array<char>
    const tx: Transmitter
    var len: nat

    ghost predicate Valid()
      reads this
    {
      buf.Length == LINE_MAX && len <= LINE_MAX
    }

    ghost function Line(): string
      reads this, buf
      requires Valid()
    {
      buf[..len]
    }

    constructor (tx: Transmitter)
      ensures Valid() && Line() == "" && this.tx == tx && fresh(buf)
    {
      buf := new char[LINE_MAX];
      this.tx := tx;
      len := 0;
    }

    method Prompt()
      modifies tx
      ensures tx.sent == old(tx.sent) + PROMPT
    {
      tx.WriteStr(PROMPT);
    }

    method Feed(byte: char) returns (phase: Phase)
      requires Valid()
      modifies this`len, buf, tx
      ensures Valid()
      ensures var e := Edited(old(Line()), byte);
              Line() == e.line && tx.sent == old(tx.sent) + e.echo && phase == e.phase
    {
      var key := if byte == '\t' then ' ' else byte;
      if key == '\r' || key == '\n' {
        tx.WriteStr("\r\n");
        return Evaluating;
      } else if key == BACKSPACE || key == DEL {
        if len > 0 {
          len := len - 1;
          tx.WriteStr(ERASE);
        }
        return Reading;
      } else if key == CTRL_U {
        for i := 0 to len
          invariant tx.sent == old(tx.sent) + Erasures(i)
        {
          tx.WriteStr(ERASE);
        }
        len := 0;
        return Reading;
      } else if key == CTRL_C {
        len := 0;
        tx.WriteStr("^C\r\n");
        Prompt();
        return Idle;
      } else if IsPrintable(key) {
        if len < LINE_MAX {
          buf[len] := key;
          len := len + 1;
          tx.PutByte(key);
        }
        return Reading;
      }
      return Reading;
    }

    method TakeLine() returns (line: string)
      requires Valid()
      modifies this`len
      ensures Valid() && line == old(Line()) && Line() == ""
    {
      line := buf[..len];
      len := 0;
    }
  }

  // ---- what a keyboard session amounts to ----

  /** The line being typed, the lines handed in, and everything sent to the terminal. */
  datatype Desk = Desk(line: string, lines: seq<string>, sent: string)

  const START := Desk("", [], PROMPT)

  /** One key; `report` is what the console prints about the line with that number. */
  function Press(d: Desk, key: char, report: nat -> string): Desk {
    var e := Edited(d.line, key);
    if e.phase == Evaluating then
      Desk("", d.lines + [d.line], d.sent + e.echo + report(|d.lines|) + PROMPT)
    else
      Desk(e.line, d.lines, d.sent + e.echo)
  }

  function PressAll(d: Desk, keys: string, report: nat -> string): Desk
    decreases |keys|
  {
    if keys == "" then d else PressAll(Press(d, keys[0], report), keys[1..], report)
  }

  lemma {:induction false} PressAppend(d: Desk, a: string, b: string, report: nat -> string)
    ensures PressAll(d, a + b, report) == PressAll(PressAll(d, a, report), b, report)
    decreases |a|
  {
    if a == "" {
      assert a + b == b;
    } else {
      assert (a + b)[1..] == a[1..] + b;
      PressAppend(Press(d, a[0], report), a[1..], b, report);
    }
  }

  // ---- lines arrive as typed ----

  predicate Typeable(line: string) {
    forall c <- line :: IsPrintable(c)
  }

  /** One printable key joins the line if there is room. */
  lemma {:induction false} PrintablePressed(d: Desk, c: char, report: nat -> string)
    requires IsPrintable(c)
    ensures Press(d, c, report).lines == d.lines
    ensures Press(d, c, report).line == d.line + if |d.line| < 128 then [c] else ""
  {
  }

  /** Of a long run of printable keys the first 128 are kept. */
  lemma {:induction false} TypingFills(d: Desk, text: string, report: nat -> string)
    requires Typeable(text) && |d.line| <= LINE_MAX
    ensures var after := PressAll(d, text, report);
            after.lines == d.lines &&
            after.line == d.line + if |d.line + text| <= LINE_MAX then text else text[..LINE_MAX - |d.line|]
    decreases |text|
  {
    if text != "" {
      hide Press, IsPrintable;
      var c := text[0];
      PrintablePressed(d, c, report);
      TypingFills(Press(d, c, report), text[1..], report);
      KeptTogether(d.line, text);
    }
  }

  lemma {:induction false} KeptTogether(line: string, text: string)
    requires text != "" && |line| <= 128
    ensures line + [text[0]] + text[1..] == line + text
    ensures |line| < 128 && |line + text| > 128 ==>
              line + [text[0]] + text[1..][..127 - |line|] == line + text[..128 - |line|]
  {
  }

  predicate Fits(line: string) {
    Typeable(line) && |line| <= 128
  }

  predicate AllFit(lines: seq<string>) {
    forall i | 0 <= i < |lines| :: Fits(lines[i])
  }

  function Keystrokes(lines: seq<string>): string {
    if lines == [] then "" else lines[0] + "\r" + Keystrokes(lines[1..])
  }

  /** Lines that fit the buffer are handed in exactly as typed. */
  lemma {:induction false} TypedLinesArrive(d: Desk, lines: seq<string>, report: nat -> string)
    requires AllFit(lines) && d.line == ""
    ensures PressAll(d, Keystrokes(lines), report).lines == d.lines + lines
    ensures PressAll(d, Keystrokes(lines), report).line == ""
    decreases |lines|
  {
    if lines != [] {
      hide PressAll, Press, Fits, Typeable;
      var l, more := lines[0], Keystrokes(lines[1..]);
      var typed := PressAll(d, l, report);
      var entered := Press(typed, '\r', report);
      LineArrives(d, l, more, report);
      TypedLinesArrive(entered, lines[1..], report);
      Regrouped(d.lines, lines);
    }
  }

  lemma Regrouped(before: seq<string>, lines: seq<string>)
    requires lines != []
    ensures before + [lines[0]] + lines[1..] == before + lines
  {
  }

  lemma {:induction false} LineArrives(d: Desk, l: string, more: string, report: nat -> string)
    requires Fits(l) && d.line == ""
    ensures var entered := Press(PressAll(d, l, report), '\r', report);
            entered.line == "" && entered.lines == d.lines + [l] &&
            PressAll(d, l + "\r" + more, report) == PressAll(entered, more, report)
  {
    hide Edited, Typeable;
    TypingFills(d, l, report);
    assert d.line + l == l;
    ReturnEntered(PressAll(d, l, report), report);
    PressAppend(d, l, "\r" + more, report);
    assert l + "\r" + more == l + ("\r" + more);
    assert ("\r" + more)[1..] == more;
  }

  lemma ReturnEntered(d: Desk, report: nat -> string)
    ensures Press(d, '\r', report).line == "" && Press(d, '\r', report).lines == d.lines + [d.line]
  {
  }

  predicate Rubs(keys: string) {
    forall i | 0 <= i < |keys| :: keys[i] == 8 as char || keys[i] == 0x7F as char
  }

  /** As many backspaces as keys undo any typing, as far as it fitted. */
  lemma {:induction false} BackspacesUndo(d: Desk, text: string, erase: string, report: nat -> string)
    requires Typeable(text) && |text| == |erase| && |d.line + text| <= LINE_MAX
    requires Rubs(erase)
    ensures PressAll(d, text + erase, report).line == d.line
    ensures PressAll(d, text + erase, report).lines == d.lines
  {
    PressAppend(d, text, erase, report);
    TypingFills(d, text, report);
    ErasingShortens(PressAll(d, text, report), erase, report);
    assert (d.line + text)[..|d.line|] == d.line;
  }

  lemma {:induction false} ErasingShortens(d: Desk, erase: string, report: nat -> string)
    requires Rubs(erase)
    requires |erase| <= |d.line|
    ensures PressAll(d, erase, report).line == d.line[..|d.line| - |erase|]
    ensures PressAll(d, erase, report).lines == d.lines
    decreases |erase|
  {
    if erase != "" {
      ErasingShortens(Press(d, erase[0], report), erase[1..], report);
    }
  }

  // ---- the other keys ----

  /** Ctrl-U and Ctrl-C throw the line away, hand nothing in, and leave the console waiting. */
  lemma KillKeysEmptyLine(d: Desk, key: char, report: nat -> string)
    requires key == 0x15 as char || key == 0x03 as char
    ensures Press(d, key, report).line == "" && Press(d, key, report).lines == d.lines
  {
  }

  /** Either end-of-line character hands the line in and starts an empty one. */
  lemma EndKeysHandIn(d: Desk, key: char, report: nat -> string)
    requires key == 0x0D as char || key == 0x0A as char
    ensures Press(d, key, report).line == "" && Press(d, key, report).lines == d.lines + [d.line]
  {
  }

  /** A tab types a blank, and control characters without a meaning change nothing. */
  lemma TabTypesBlank(d: Desk, report: nat -> string)
    ensures Press(d, 0x09 as char, report) == Press(d, ' ', report)
    ensures |d.line| < 128 ==> Press(d, 0x09 as char, report).line == d.line + " "
  {
  }

  lemma OtherKeysAreIgnored(d: Desk, key: char, report: nat -> string)
    requires key < ' ' || key > '~'
    requires key as int !in {0x03, 0x08, 0x09, 0x0A, 0x0D, 0x15, 0x7F}
    ensures Press(d, key, report) == d
  {
    assert d.sent + "" == d.sent;
  }

  // ---- what can be handed in ----

  predicate WellTyped(d: Desk) {
    Fits(d.line) && AllFit(d.lines)
  }

  /** Whatever is pressed, a line handed in is printable and fits the buffer. */
  lemma {:induction false} LinesAreWellTyped(d: Desk, keys: string, report: nat -> string)
    requires WellTyped(d)
    ensures WellTyped(PressAll(d, keys, report))
    decreases |keys|
  {
    if keys != "" {
      PressIsWellTyped(d, keys[0], report);
      LinesAreWellTyped(Press(d, keys[0], report), keys[1..], report);
    }
  }

  lemma PressIsWellTyped(d: Desk, key: char, report: nat -> string)
    requires WellTyped(d)
    ensures WellTyped(Press(d, key, report))
  {
    var line := Press(d, key, report).line;
    forall c | c in line
      ensures IsPrintable(c)
    {
    }
  }

  // ---- the screen ----

  /** The row the cursor is on, and its column. */
  datatype Screen = Screen(row: string, col: nat)

  function Blank(n: nat): string {
    seq(n, _ => ' ')
  }

  /** A terminal that overwrites in place, moves left on a backspace and keeps its column on a line feed. */
  function Show(s: Screen, c: char): Screen {
    if c == '\r' then s.(col := 0)
    else if c == '\n' then Screen(Blank(s.col), s.col)
    else if c == BACKSPACE then s.(col := if s.col == 0 then 0 else s.col - 1)
    else if s.col < |s.row| then Screen(s.row[s.col := c], s.col + 1)
    else Screen(s.row + Blank(s.col - |s.row|) + [c], s.col + 1)
  }

  function ShowAll(s: Screen, text: string): Screen {
    if text == "" then s else Show(ShowAll(s, text[..|text| - 1]), text[|text| - 1])
  }

  /** Nothing but blanks from the cursor on. */
  predicate Clear(s: Screen) {
    s.col <= |s.row| && forall i | s.col <= i < |s.row| :: s.row[i] == ' '
  }

  function Left(s: Screen): string
    requires Clear(s)
  {
    s.row[..s.col]
  }

  predicate EndsWith(s: string, end: string) {
    |end| <= |s| && s[|s| - |end|..] == end
  }

  /** Left of the cursor the row ends with the prompt and the line; right of it there is nothing to see. */
  predicate InStep(s: Screen, line: string) {
    Clear(s) && EndsWith(Left(s), "holy> " + line)
  }

  lemma {:induction false} ShowAppend(s: Screen, a: string, b: string)
    ensures ShowAll(s, a + b) == ShowAll(ShowAll(s, a), b)
    decreases |b|
  {
    if b == "" {
      assert a + b == a;
    } else {
      var front := b[..|b| - 1];
      assert (a + b)[..|a + b| - 1] == a + front;
      ShowAppend(s, a, front);
    }
  }

  lemma {:induction false} TextShows(s: Screen, text: string)
    requires Clear(s) && Typeable(text)
    ensures Clear(ShowAll(s, text)) && Left(ShowAll(s, text)) == Left(s) + text
    decreases |text|
  {
    if text != "" {
      assert IsPrintable(text[|text| - 1]);
      TextShows(s, text[..|text| - 1]);
    }
  }

  lemma {:induction false} EraseShows(s: Screen)
    requires Clear(s) && s.col > 0
    ensures Clear(ShowAll(s, ERASE)) && Left(ShowAll(s, ERASE)) == Left(s)[..s.col - 1]
  {
    assert ERASE[..2] == [BACKSPACE, ' '] && ERASE[..2][..1] == [BACKSPACE];
    assert ShowAll(s, [BACKSPACE]) == Show(s, BACKSPACE);
    assert ShowAll(s, [BACKSPACE, ' ']) == Show(Show(s, BACKSPACE), ' ');
  }

  lemma {:induction false} ErasuresShow(s: Screen, n: nat)
    requires Clear(s) && n <= s.col
    ensures Clear(ShowAll(s, Erasures(n))) && Left(ShowAll(s, Erasures(n))) == Left(s)[..s.col - n]
  {
    if n > 0 {
      ErasuresShow(s, n - 1);
      ShowAppend(s, Erasures(n - 1), ERASE);
      EraseShows(ShowAll(s, Erasures(n - 1)));
    }
  }

  predicate EndsRow(text: string) {
    text != "" && text[|text| - 1] == '\n'
  }

  lemma {:induction false} NothingShows(s: Screen)
    ensures ShowAll(s, "") == s
  {
  }

  lemma {:induction false} RowEnds(s: Screen, text: string)
    requires EndsRow(text)
    ensures Clear(ShowAll(s, text))
  {
  }

  lemma {:induction false} PromptShows(s: Screen)
    requires Clear(s)
    ensures InStep(ShowAll(s, PROMPT), "")
  {
    TextShows(s, PROMPT);
    assert PROMPT + "" == PROMPT;
  }

  lemma {:induction false} KeyStaysInStep(s: Screen, line: string, key: char)
    requires InStep(s, line)
    ensures var e := Edited(line, key);
            if e.phase == Evaluating then EndsRow(e.echo) else InStep(ShowAll(s, e.echo), e.line)
  {
    hide ShowAll, InStep;
    var e := Edited(line, key);
    if e.echo == "" {
      NothingShows(s);
    } else if key == CTRL_C {
      InStepIsClear(s, line);
      CancelInStep(s);
    } else if key == CTRL_U {
      ErasuresInStep(s, line, |line|);
    } else if e.echo == ERASE {
      assert Erasures(1) == ERASE;
      ErasuresInStep(s, line, 1);
    } else if e.phase == Reading {
      TextInStep(s, line, e.echo);
    }
  }

  lemma InStepIsClear(s: Screen, line: string)
    requires InStep(s, line)
    ensures Clear(s)
  {
  }

  lemma {:induction false} CancelInStep(s: Screen)
    requires Clear(s)
    ensures InStep(ShowAll(s, "^C\r\n" + PROMPT), "")
  {
    RowEnds(s, "^C\r\n");
    ShowAppend(s, "^C\r\n", PROMPT);
    PromptShows(ShowAll(s, "^C\r\n"));
  }

  lemma {:induction false} ErasuresInStep(s: Screen, line: string, n: nat)
    requires InStep(s, line) && n <= |line|
    ensures InStep(ShowAll(s, Erasures(n)), line[..|line| - n])
  {
    hide ShowAll;
    ErasuresShow(s, n);
    ShorterEnd(Left(s), PROMPT, line, n);
  }

  lemma {:induction false} TextInStep(s: Screen, line: string, text: string)
    requires InStep(s, line) && Typeable(text)
    ensures InStep(ShowAll(s, text), line + text)
  {
    hide ShowAll;
    TextShows(s, text);
    assert PROMPT + (line + text) == (PROMPT + line) + text;
  }

  lemma ShorterEnd(s: string, before: string, line: string, n: nat)
    requires EndsWith(s, before + line) && n <= |line|
    ensures EndsWith(s[..|s| - n], before + line[..|line| - n])
  {
    assert before + line[..|line| - n] == (before + line)[..|before + line| - n];
  }

  /**
   * Whatever keys are pressed, the screen goes on showing the prompt and the
   * line being typed, provided each report is empty or ends its row.
   */
  lemma {:induction false} ScreenShowsLine(s: Screen, d: Desk, keys: string, report: nat -> string)
    requires InStep(ShowAll(s, d.sent), d.line)
    requires forall n :: report(n) == "" || EndsRow(report(n))
    ensures var after := PressAll(d, keys, report); InStep(ShowAll(s, after.sent), after.line)
    decreases |keys|
  {
    if keys != "" {
      hide Edited, InStep;
      PressStaysInStep(s, d, keys[0], report);
      ScreenShowsLine(s, Press(d, keys[0], report), keys[1..], report);
    }
  }

  lemma {:induction false} PressStaysInStep(s: Screen, d: Desk, key: char, report: nat -> string)
    requires InStep(ShowAll(s, d.sent), d.line)
    requires forall n :: report(n) == "" || EndsRow(report(n))
    ensures var after := Press(d, key, report); InStep(ShowAll(s, after.sent), after.line)
  {
    hide Edited, ShowAll, InStep;
    var e, seen := Edited(d.line, key), ShowAll(s, d.sent);
    KeyStaysInStep(seen, d.line, key);
    if e.phase == Evaluating {
      var said := e.echo + report(|d.lines|);
      assert EndsRow(said);
      ShowAppend(s, d.sent, said);
      RowEnds(seen, said);
      ShowAppend(s, d.sent + said, PROMPT);
      PromptShows(ShowAll(seen, said));
      assert d.sent + said + PROMPT == d.sent + e.echo + report(|d.lines|) + PROMPT;
    } else {
      ShowAppend(s, d.sent, e.echo);
    }
  }
}
