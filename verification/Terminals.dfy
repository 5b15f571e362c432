/**
 * The console loop (src/drivers/repl.rs): keys are polled, edited into lines,
 * and each line handed to the console.
 */
module Terminals {
  import opened Wrappers
  import opened Machine
  import opened Target
  import opened Session
  import opened Uart
  import opened Editor
  import opened Repl

  /** What the hardware contributes to, and what the console prints about, the line with a given number. */
  datatype Outside = Outside(cycles: nat -> Word, regs: nat -> Regs, report: nat -> string)

  /** The keys among the answers of the receiver; an empty poll delivers none. */
  function Keys(polls: seq<Option<char>>): string {
    if polls == [] then ""
    else
      var last := polls[|polls| - 1];
      Keys(polls[..|polls| - 1]) + if last.Some? then [last.value] else ""
  }

  /** What is left of the polls when the start-up drain has met its first empty one, if it has. */
  function AfterDrain(polls: seq<Option<char>>): Option<seq<Option<char>>> {
    if polls == [] then None else if polls[0].Some? then AfterDrain(polls[1..]) else Some(polls[1..])
  }

  function LinesOf(inputs: seq<Input>): seq<string> {
    seq(|inputs|, i requires 0 <= i < |inputs| => inputs[i].line)
  }

  lemma {:induction false} PressLast(d: Desk, keys: string, key: char, report: nat -> string)
    ensures PressAll(d, keys + [key], report) == Press(PressAll(d, keys, report), key, report)
  {
    PressAppend(d, keys, [key], report);
    assert [key][1..] == "";
  }

  function Typed(polls: seq<Option<char>>, outside: Outside): Desk {
    PressAll(START, Keys(polls), outside.report)
  }

  /**
   * How far the loop has got with the desk `d`: waiting for a key, about to
   * evaluate the line last handed in, or about to report on it.
   */
  predicate Agrees(state: Phase, line: string, lines: seq<string>, sent: string, d: Desk, report: nat -> string) {
    match state
    case Evaluating => d == Desk("", lines + [line], sent + report(|lines|) + PROMPT)
    case Printing => lines != [] && line == "" && d == Desk("", lines, sent + report(|lines| - 1) + PROMPT)
    case _ => d == Desk(line, lines, sent)
  }

  lemma PollTyped(polls: seq<Option<char>>, i: nat, outside: Outside)
    requires i < |polls|
    ensures Typed(polls[..i + 1], outside)
         == match polls[i]
            case Some(key) => Press(Typed(polls[..i], outside), key, outside.report)
            case None => Typed(polls[..i], outside)
  {
    assert polls[..i + 1][..i] == polls[..i];
    match polls[i]
    case Some(key) => PressLast(START, Keys(polls[..i]), key, outside.report);
    case None =>
      assert Keys(polls[..i]) + "" == Keys(polls[..i]);
  }

  lemma KeyAgrees(state: Phase, line: string, lines: seq<string>, sent: string, d: Desk, key: char,
                  report: nat -> string)
    requires (state == Idle || state == Reading) && Agrees(state, line, lines, sent, d, report)
    ensures var e := Edited(line, key); Agrees(e.phase, e.line, lines, sent + e.echo, Press(d, key, report), report)
  {
    assert Edited(line, key).phase != Printing;
  }

  lemma StartAgrees(outside: Outside)
    ensures Agrees(Idle, "", LinesOf([]), "" + PROMPT, Typed([], outside), outside.report)
  {
  }

  lemma LineTaken(line: string, before: seq<Input>, input: Input, sent: string, d: Desk, report: nat -> string)
    requires input.line == line && Agrees(Evaluating, line, LinesOf(before), sent, d, report)
    ensures Agrees(Printing, "", LinesOf(before + [input]), sent, d, report)
  {
    assert LinesOf(before + [input]) == LinesOf(before) + [line];
  }

  lemma ReportShown(line: string, inputs: seq<Input>, sent: string, d: Desk, report: nat -> string)
    requires Agrees(Printing, line, LinesOf(inputs), sent, d, report)
    ensures inputs != [] && Agrees(Idle, line, LinesOf(inputs), sent + report(|inputs| - 1) + PROMPT, d, report)
  {
  }

  lemma Waiting(from: Phase, to: Phase, line: string, lines: seq<string>, sent: string, d: Desk, report: nat -> string)
    requires (from == Idle || from == Reading) && (to == Idle || to == Reading)
    requires Agrees(from, line, lines, sent, d, report)
    ensures Agrees(to, line, lines, sent, d, report) && d == Desk(line, lines, sent)
  {
  }

  class Terminal {
    const console: Console
    const editor: LineEditor

    ghost predicate Valid()
      reads this, console, console.compiler, console.compiler.symbols, console.compiler.symbols.slots,
            console.reg, console.reg.bits, console.log, console.log.buffer, console.engine,
            console.em, console.em.thumb, console.em.riscv, console.mem, editor
    {
      console.Valid() && editor.Valid()
    }

    constructor (arch: Arch, bus: Bus)
      ensures Valid() && editor.Line() == "" && editor.tx.sent == ""
      ensures console.State() == POWER_ON && console.Cfg() == Config(arch, bus, NativeFirst)
    {
      console := new Console(arch, bus);
      var tx := new Transmitter();
      editor := new LineEditor(tx);
    }

    method Key(byte: char) returns (state: Phase)
      requires Valid()
      modifies editor`len, editor.buf, editor.tx
      ensures Valid() && console.State() == old(console.State())
      ensures var e := Edited(old(editor.Line()), byte);
              editor.Line() == e.line && editor.tx.sent == old(editor.tx.sent) + e.echo && state == e.phase
    {
      hide Edited, SysInv;
      state := editor.Feed(byte);
    }

    /** The line is compiled, and carried out before the loop comes round to report on it. */
    method Evaluate(n: nat, outside: Outside) returns (ghost input: Input)
      requires Valid()
      modifies console`history, console.compiler, console.compiler.stream, console.compiler.symbols.slots, console.mem,
               console.log, console.log.buffer, console.reg`claims, console.reg.bits,
               console.engine, console.engine.stack, console.em.thumb, console.em.thumb.buf,
               console.em.riscv, console.em.riscv.buf, editor`len
      ensures Valid() && editor.Line() == "" && input.line == old(editor.Line())
      ensures console.State() == Session.Feed(console.Cfg(), old(console.State()), input)
    {
      hide SysInv, Session.Feed;
      var line := editor.TakeLine();
      var result;
      result, input := console.EvalLine(line, outside.cycles(n), outside.regs(n));
    }

    method Report(n: nat, outside: Outside)
      requires Valid()
      modifies editor.tx
      ensures Valid() && console.State() == old(console.State())
      ensures editor.tx.sent == old(editor.tx.sent) + outside.report(n) + PROMPT
    {
      editor.tx.WriteStr(outside.report(n));
      editor.Prompt();
    }

    /** Start-up throws away what the receiver still holds, up to the first empty poll. */
    static method Drain(polls: seq<Option<char>>) returns (rest: Option<seq<Option<char>>>)
      ensures rest == AfterDrain(polls)
    {
      var i := 0;
      assert polls[0..] == polls;
      while i < |polls| && polls[i].Some?
        invariant i <= |polls| && AfterDrain(polls[i..]) == AfterDrain(polls)
      {
        i := i + 1;
      }
      return if i < |polls| then Some(polls[i + 1..]) else None;
    }

    /**
     * The console from start-up on, for as long as the receiver is polled: what
     * comes in before the first empty poll is discarded without a prompt, and
     * then the loop takes over.
     */
    method Start(polls: seq<Option<char>>, outside: Outside) returns (ghost inputs: seq<Input>)
      requires Valid() && editor.Line() == "" && editor.tx.sent == ""
      modifies console`history, console.compiler, console.compiler.stream, console.compiler.symbols.slots, console.mem,
               console.log, console.log.buffer, console.reg`claims, console.reg.bits,
               console.engine, console.engine.stack, console.em.thumb, console.em.thumb.buf,
               console.em.riscv, console.em.riscv.buf, editor.tx, editor`len, editor.buf
      ensures Valid()
      ensures Desk(editor.Line(), LinesOf(inputs), editor.tx.sent)
           == match AfterDrain(polls)
              case Some(rest) => Typed(rest, outside)
              case None => Desk("", [], "")
      ensures console.State() == Session.FeedAll(console.Cfg(), old(console.State()), inputs)
    {
      var rest := Drain(polls);
      if rest.None? {
        inputs := [];
        return;
      }
      inputs := Serve(rest.value, outside);
    }

    /** Whether the loop polls for a key in that state. */
    static predicate Polls(state: Phase) {
      state == Idle || state == Reading
    }

    /** One turn of the loop. */
    method Turn(state: Phase, polls: seq<Option<char>>, i: nat, done: nat, outside: Outside, ghost inputs: seq<Input>)
        returns (next: Phase, ghost more: seq<Input>)
      requires Valid() && done == |inputs| && (if Polls(state) then i < |polls| else i <= |polls|)
      requires Agrees(state, editor.Line(), LinesOf(inputs), editor.tx.sent, Typed(polls[..i], outside), outside.report)
      modifies console`history, console.compiler, console.compiler.stream, console.compiler.symbols.slots, console.mem,
               console.log, console.log.buffer, console.reg`claims, console.reg.bits,
               console.engine, console.engine.stack, console.em.thumb, console.em.thumb.buf,
               console.em.riscv, console.em.riscv.buf, editor.tx, editor`len, editor.buf
      ensures Valid()
      ensures state == Evaluating ==> next == Printing
      ensures state == Printing ==> next == Idle
      ensures Agrees(next, editor.Line(), LinesOf(more), editor.tx.sent,
                     Typed(polls[..if Polls(state) then i + 1 else i], outside), outside.report)
      ensures if state == Evaluating then
                |more| == done + 1 && more[..done] == inputs &&
                console.State() == Session.Feed(console.Cfg(), old(console.State()), more[done])
              else more == inputs && console.State() == old(console.State())
    {
      hide PressAll, Press, Edited, Keys, Agrees, LinesOf, Session.Feed, SysInv;
      ghost var line, sent, d := editor.Line(), editor.tx.sent, Typed(polls[..i], outside);
      more := inputs;
      match state
      case Evaluating =>
        ghost var input := Evaluate(done, outside);
        LineTaken(line, inputs, input, sent, d, outside.report);
        more := inputs + [input];
        next := Printing;
      case Printing =>
        ReportShown(line, inputs, sent, d, outside.report);
        Report(done - 1, outside);
        next := Idle;
      case _ =>
        PollTyped(polls, i, outside);
        match polls[i]
        case Some(byte) =>
          KeyAgrees(state, line, LinesOf(inputs), sent, d, byte, outside.report);
          next := Key(byte);
        case None =>
          Waiting(state, Reading, line, LinesOf(inputs), sent, d, outside.report);
          next := Reading;
    }

    /**
     * The loop, for as long as the receiver is polled: the session is fed the
     * lines that the keys spell, and the terminal sees what the desk says.
     */
    method Serve(polls: seq<Option<char>>, outside: Outside) returns (ghost inputs: seq<Input>)
      requires Valid() && editor.Line() == "" && editor.tx.sent == ""
      modifies console`history, console.compiler, console.compiler.stream, console.compiler.symbols.slots, console.mem,
               console.log, console.log.buffer, console.reg`claims, console.reg.bits,
               console.engine, console.engine.stack, console.em.thumb, console.em.thumb.buf,
               console.em.riscv, console.em.riscv.buf, editor.tx, editor`len, editor.buf
      ensures Valid()
      ensures Desk(editor.Line(), LinesOf(inputs), editor.tx.sent) == Typed(polls, outside)
      ensures console.State() == Session.FeedAll(console.Cfg(), old(console.State()), inputs)
    {
      hide PressAll, Press, Edited, Keys, Agrees, LinesOf, Session.Feed, SysInv;
      inputs := [];
      ghost var cfg, start := console.Cfg(), console.State();
      var state := Idle;
      var i, done := 0, 0;
      editor.Prompt();
      StartAgrees(outside);
      while i < |polls| || !Polls(state)
        invariant Valid() && console.Cfg() == cfg
        invariant i <= |polls| && done == |inputs|
        invariant Agrees(state, editor.Line(), LinesOf(inputs), editor.tx.sent, Typed(polls[..i], outside),
                         outside.report)
        invariant console.State() == Session.FeedAll(cfg, start, inputs)
        decreases |polls| - i, if state == Evaluating then 2 else if state == Printing then 1 else 0
      {
        var before := state;
        state, inputs := Turn(before, polls, i, done, outside, inputs);
        done := if before == Evaluating then done + 1 else done;
        i := if Polls(before) then i + 1 else i;
      }
      assert polls[..i] == polls;
      Waiting(state, Idle, editor.Line(), LinesOf(inputs), editor.tx.sent, Typed(polls, outside), outside.report);
    }
  }
}
