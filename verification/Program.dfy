/**
 * Running a compiled program (`StreamProgram::run`, src/compiler/parser.rs):
 * native code first, the threaded engine when the generator declines.  The
 * results below are about the programs the parser builds.
 */
module Program {
  import opened Wrappers
  import opened Machine
  import opened Exec
  import opened Target
  import opened Native
  import opened Generator
  import opened Simulation
  import opened RiscVBackend

  datatype StreamProgram = StreamProgram(words: seq<Word>, yieldsValue: bool)

  /** `Crash`: control never comes back in an orderly way. */
  datatype RunResult = Value(value: Word) | NoValue | Crash

  predicate NativeAccepts(words: seq<Word>) {
    words != [] && Compilable(words, false) && !EndsOnBareLit(words)
  }

  /** Where a target returns its result. */
  function ResultOf(arch: Arch, c: Cpu): Word {
    match arch
    case Arm => Get(c.regs, ACC)
    case RiscV32 => Get(c.regs, RiscV.A0)
  }

  /** A call into a buffer that holds the code of `ops`, a return, and what was left there before. */
  function RunCode(arch: Arch, bus: Bus, ops: seq<Op>, junk: Leftovers, c: Cpu): CodeRun {
    match arch
    case Arm => Thumb.Execute(bus, ThumbCode(ops) + [Thumb.BX_LR] + junk.halfwords, c)
    case RiscV32 => RiscV.Execute(bus, RiscV.ProgramCode(ops) + [RiscV.RV32_RET] + junk.words, c)
  }

  /** The array a program is kept in: zeros behind its words. */
  function Padded(words: seq<Word>): (p: seq<Word>)
    ensures |words| <= MAX_STREAM_WORDS ==> |p| == MAX_STREAM_WORDS
  {
    words + if |words| < MAX_STREAM_WORDS then seq(MAX_STREAM_WORDS - |words|, _ => 0) else []
  }

  /**
   * The result of a run and the traffic after it; `regs` are the registers at
   * the jump and `junk` what older programs left behind in the buffer.
   */
  function RunProgram(arch: Arch, bus: Bus, p: StreamProgram, regs: Regs, junk: Leftovers, trace: Trace)
      : (RunResult, Trace)
  {
    if NativeAccepts(p.words) then
      SelectionFailsOnlyOnBareLit(p.words, false, false);
      match RunCode(arch, bus, Select(p.words, false).value, junk, Cpu(regs, trace))
      case Returned(c) => (if p.yieldsValue then Value(ResultOf(arch, c)) else NoValue, c.trace)
      case Fault => (Crash, trace)
    else if p.words != [] then
      match Threaded(bus, Padded(p.words), Vm([], trace))
      case Halted(vm) => (if p.yieldsValue then Value(Top(vm.stack)) else NoValue, vm.trace)
      case Wild => (Crash, trace)
    else
      (if p.yieldsValue then Value(0) else NoValue, trace)
  }

  /** What the processor does with everything the buffer holds. */
  ghost function BufferRun(em: Emitter, bus: Bus, c: Cpu): CodeRun
    reads em, em.thumb, em.thumb.buf, em.riscv, em.riscv.buf
  {
    match em.arch
    case Arm => Thumb.Execute(bus, em.thumb.buf[..], c)
    case RiscV32 => RiscV.Execute(bus, em.riscv.buf[..], c)
  }

  /** The call into the buffer. */
  method JumpToSram(mem: Memory, em: Emitter, regs: Regs) returns (r: Option<Word>)
    modifies mem
    ensures match BufferRun(em, mem.bus, Cpu(regs, old(mem.trace)))
            case Returned(c) => r == Some(ResultOf(em.arch, c)) && mem.trace == c.trace
            case Fault => r == None && mem.trace == old(mem.trace)
  {
    var done: CodeRun;
    match em.arch {
      case Arm => done := Thumb.Execute(mem.bus, em.thumb.buf[..], Cpu(regs, mem.trace));
      case RiscV32 => done := RiscV.Execute(mem.bus, em.riscv.buf[..], Cpu(regs, mem.trace));
    }
    match done
    case Returned(c) =>
      mem.trace := c.trace;
      r := Some(ResultOf(em.arch, c));
    case Fault =>
      r := None;
  }

  lemma BufferHoldsCode(em: Emitter, bus: Bus, ops: seq<Op>, c: Cpu)
    requires em.Valid() && em.Holds(ops, true)
    ensures BufferRun(em, bus, c) == RunCode(em.arch, bus, ops, em.Behind(), c)
  {
    assert em.thumb.buf[..] == em.thumb.Code() + em.thumb.buf[em.thumb.lenWords..];
    assert em.riscv.buf[..] == em.riscv.Code() + em.riscv.buf[em.riscv.lenWords..];
  }

  method Run(p: StreamProgram, engine: Engine, em: Emitter, regs: Regs) returns (r: RunResult)
    requires engine.Valid() && em.Valid() && |p.words| <= MAX_STREAM_WORDS
    modifies engine, engine.stack, engine.mem, em.thumb, em.thumb.buf, em.riscv, em.riscv.buf
    ensures engine.Valid() && em.Valid()
    ensures r == RunProgram(em.arch, engine.mem.bus, p, regs, em.Behind(), old(engine.mem.trace)).0
    ensures r != Crash ==>
              engine.mem.trace
              == RunProgram(em.arch, engine.mem.bus, p, regs, em.Behind(), old(engine.mem.trace)).1
  {
    engine.VmReset();
    if |p.words| > 0 {
      var compiled := Compile(em, p.words);
      if compiled {
        BufferHoldsCode(em, engine.mem.bus, Select(p.words, false).value, Cpu(regs, engine.mem.trace));
        var entry := JumpToSram(engine.mem, em, regs);
        if entry.None? {
          return Crash;
        }
        return if p.yieldsValue then Value(entry.value) else NoValue;
      }
      var ok := engine.RunThreadedStream(Padded(p.words));
      if !ok {
        return Crash;
      }
    }
    if p.yieldsValue {
      var top := engine.VmPop();
      return Value(top);
    }
    return NoValue;
  }

  // ---- the programs the parser builds ----

  /** Function bodies hold pokes and peeks only. */
  predicate Blocks(items: seq<Item>) {
    forall i <- items :: i.Poke? || i.Peek?
  }

  function CallProgram(items: seq<Item>): StreamProgram {
    StreamProgram(Words(items) + [HALT], false)
  }

  function ValueProgram(v: Word): StreamProgram {
    StreamProgram([LIT, v, HALT], true)
  }

  lemma {:induction false} BlocksAreFragment(items: seq<Item>, started: bool, loaded: bool)
    requires Blocks(items)
    ensures Fragment(items, started, loaded)
  {
    if items != [] {
      BlocksAreFragment(items[1..], true, loaded || items[0].Peek?);
    }
  }

  lemma {:induction false} FragmentAccepted(items: seq<Item>, tail: seq<Word>, started: bool, loaded: bool, seen: bool)
    requires Stops(tail) && Fragment(items, started, loaded) && (loaded ==> started)
    ensures Compilable(Words(items) + tail, seen) && !EndsOnBareLit(Words(items) + tail)
  {
    if items == [] {
      assert Words(items) + tail == tail;
    } else {
      hide Compilable, EndsOnBareLit;
      var rest := Words(items[1..]) + tail;
      assert Words(items) + tail == ItemWords(items[0]) + rest;
      FragmentAccepted(items[1..], tail, true, loaded || !items[0].Poke?, true);
      ScanItem(items[0], rest, seen);
    }
  }

  lemma {:induction false} ScanItem(i: Item, rest: seq<Word>, seen: bool)
    requires i.Compute? ==> IsArith(i.op)
    ensures Compilable(ItemWords(i) + rest, seen) == Compilable(rest, true)
    ensures EndsOnBareLit(ItemWords(i) + rest) == EndsOnBareLit(rest)
  {
    hide Compilable, EndsOnBareLit, IsArith;
    match i
    case Poke(addr, value) =>
      ScanLit(addr, [LIT, value] + ([WRITE] + rest), seen);
      ScanLit(value, [WRITE] + rest, true);
      ScanOp(WRITE, rest);
      assert ItemWords(i) + rest == [LIT, addr] + ([LIT, value] + ([WRITE] + rest));
    case Peek(addr) =>
      ScanLit(addr, [LOAD] + rest, seen);
      ScanOp(LOAD, rest);
      assert ItemWords(i) + rest == [LIT, addr] + ([LOAD] + rest);
    case Lit(value) =>
      ScanLit(value, rest, seen);
    case Compute(op, operand) =>
      ScanLit(operand, [op] + rest, seen);
      ScanOp(op, rest);
      assert ItemWords(i) + rest == [LIT, operand] + ([op] + rest);
  }

  lemma {:induction false} ScanLit(v: Word, rest: seq<Word>, seen: bool)
    ensures Compilable([LIT, v] + rest, seen) == Compilable(rest, true)
    ensures EndsOnBareLit([LIT, v] + rest) == EndsOnBareLit(rest)
  {
    assert ([LIT, v] + rest)[2..] == rest;
  }

  lemma {:induction false} ScanOp(op: Word, rest: seq<Word>)
    requires op == LOAD || op == WRITE || IsArith(op)
    ensures Compilable([op] + rest, true) == Compilable(rest, true)
    ensures EndsOnBareLit([op] + rest) == EndsOnBareLit(rest)
  {
    assert ([op] + rest)[1..] == rest;
  }

  /** The immediates of a program as the target's code really loads them. */
  function AsLoaded(arch: Arch, items: seq<Item>): seq<Item> {
    match arch
    case Arm => items
    case RiscV32 => ReloadItems(items)
  }

  /**
   * Every program in the fragment runs natively on either target, never on the
   * threaded engine, and does exactly what `NativeMeaning` says.
   */
  lemma {:induction false} RunIsNative(arch: Arch, bus: Bus, items: seq<Item>, yieldsValue: bool, regs: Regs,
                                       junk: Leftovers, trace: Trace)
    requires Fragment(items, false, false)
    ensures NativeAccepts(Words(items) + [HALT])
    ensures var s := NativeMeaning(bus, AsLoaded(arch, items), AccState(None, trace));
            var r := RunProgram(arch, bus, StreamProgram(Words(items) + [HALT], yieldsValue), regs, junk, trace);
            r.1 == s.trace && (!yieldsValue ==> r.0 == NoValue) &&
            (yieldsValue && s.acc.Some? ==> r.0 == Value(s.acc.value))
  {
    hide Thumb.Execute, RiscV.Execute, Select;
    FragmentAccepted(items, [HALT], false, false, false);
    match arch
    case Arm => Simulation.EmittedCodeMeaning(bus, items, [HALT], junk.halfwords, Cpu(regs, trace));
    case RiscV32 => RiscVBackend.EmittedCodeMeaning(bus, items, [HALT], junk.words, Cpu(regs, trace));
  }

  /** A bare expression touches nothing and yields the value it folded to, as far as the target can load it. */
  lemma ValueProgramRuns(arch: Arch, bus: Bus, v: Word, regs: Regs, junk: Leftovers, trace: Trace)
    ensures RunProgram(arch, bus, ValueProgram(v), regs, junk, trace)
         == (Value(if arch == Arm then v else RiscV.Loaded(v)), trace)
  {
    hide RunProgram, RiscV.Loaded;
    var items := [Lit(v)];
    assert items[1..] == [];
    assert Words(items) + [HALT] == [LIT, v, HALT];
    RunIsNative(arch, bus, items, true, regs, junk, trace);
    var loaded := AsLoaded(arch, items);
    match arch {
      case Arm =>
      case RiscV32 => assert loaded == [Lit(RiscV.Loaded(v))] + ReloadItems([]);
    }
    assert |loaded| == 1 && loaded[1..] == [];
    var none := AccState(None, trace);
    assert NativeMeaning(bus, loaded, none) == NativeMeaning(bus, [], NativeItem(bus, loaded[0], none));
  }

  /**
   * What `run` does to memory on ARM is what the threaded engine would have done
   * exactly when every poke but a leading one finds its address in the accumulator.
   */
  lemma {:induction false} RunAgreesIff(bus: Bus, items: seq<Item>, yieldsValue: bool, regs: Regs, junk: Leftovers,
                                        trace: Trace)
    requires Fragment(items, false, false) && |Words(items)| < MAX_STREAM_WORDS
    ensures var words := Words(items) + [HALT];
            var threaded := Threaded(bus, words, Vm([], trace));
            var run := RunProgram(Arm, bus, StreamProgram(words, yieldsValue), regs, junk, trace);
            threaded.Halted? &&
            (run.1 == threaded.vm.trace <==> PokesHit(bus, items, AccState(None, trace))) &&
            (run.1 == threaded.vm.trace && yieldsValue && threaded.vm.stack != [] ==>
               run.0 == Value(Top(threaded.vm.stack)))
  {
    hide RunProgram, Threaded;
    ThreadedMeaning(bus, items, [HALT], trace);
    EnginesAgreeIff(bus, items, trace);
    RunIsNative(Arm, bus, items, yieldsValue, regs, junk, trace);
  }

  // ---- the operand stack ----

  /** Three words of body per value left behind: a 32-word body never needs a twelfth slot. */
  lemma {:induction false} BodyDepth(items: seq<Item>, depth: nat)
    requires Blocks(items) && 3 * depth + |Words(items)| <= 32
    ensures MaxDepth(items, depth) <= 11
  {
    if items != [] {
      BodyDepth(items[1..], if items[0].Peek? then depth + 1 else depth);
    }
  }

  /** A stored function runs to its end on eleven slots, without a dropped push or an empty pop. */
  lemma {:induction false} BodyNeverStrainsStack(bus: Bus, items: seq<Item>, trace: Trace)
    requires Blocks(items) && |Words(items)| <= 32
    ensures StrictThreaded(bus, Words(items) + [HALT], Vm([], trace), 11) == Fine(Meaning(bus, items, Vm([], trace)))
  {
    BlocksAreFragment(items, false, false);
    BodyDepth(items, 0);
    StrictMeaning(bus, items, [HALT], Vm([], trace), false, 11);
  }

  /** Nor does a value program. */
  lemma ValueNeverStrainsStack(bus: Bus, v: Word, trace: Trace)
    ensures StrictThreaded(bus, ValueProgram(v).words, Vm([], trace), 11) == Fine(Vm([v], trace))
  {
    hide StrictThreaded;
    var items := [Lit(v)];
    assert items[1..] == [] && Words(items) + [HALT] == [LIT, v, HALT];
    StrictMeaning(bus, items, [HALT], Vm([], trace), false, 11);
    assert Meaning(bus, items, Vm([], trace)) == Meaning(bus, [], ItemMeaning(bus, items[0], Vm([], trace)));
  }

  lemma {:induction false} TooDeepIsStuck(bus: Bus, items: seq<Item>, tail: seq<Word>, vm: Vm, limit: nat)
    requires Blocks(items) && Stops(tail) && |vm.stack| <= limit <= VM_STACK_SIZE
    requires MaxDepth(items, |vm.stack|) > limit
    ensures StrictThreaded(bus, Words(items) + tail, vm, limit) == Stuck
    decreases |items|
  {
    hide StrictThreaded;
    var i := items[0];
    var rest := Words(items[1..]) + tail;
    assert Words(items) + tail == ItemWords(i) + rest;
    if |vm.stack| == limit {
      assert ItemWords(i) + rest == [LIT, i.addr] + (ItemWords(i)[2..] + rest);
      FullIsStuck(bus, i.addr, ItemWords(i)[2..] + rest, vm, limit);
    } else if i.Poke? && |vm.stack| + 1 == limit {
      var second := [LIT, i.value] + ([WRITE] + rest);
      assert ItemWords(i) + rest == [LIT, i.addr] + second;
      StrictLit(bus, i.addr, second, vm, limit);
      FullIsStuck(bus, i.value, [WRITE] + rest, vm.(stack := vm.stack + [i.addr]), limit);
    } else {
      StrictItem(bus, i, rest, vm, limit);
      TooDeepIsStuck(bus, items[1..], tail, ItemMeaning(bus, i, vm), limit);
    }
  }

  lemma {:induction false} FullIsStuck(bus: Bus, v: Word, rest: seq<Word>, vm: Vm, limit: nat)
    requires |vm.stack| == limit
    ensures StrictThreaded(bus, [LIT, v] + rest, vm, limit) == Stuck
  {
  }

  function Peeks(addr: Word, n: nat): seq<Item> {
    if n == 0 then [] else [Peek(addr)] + Peeks(addr, n - 1)
  }

  lemma {:induction false} PeeksThenPoke(p: Word, a: Word, v: Word, n: nat, depth: nat)
    ensures var items := Peeks(p, n) + [Poke(a, v)];
            Blocks(items) && |Words(items)| == 3 * n + 5 && MaxDepth(items, depth) == depth + n + 2
  {
    var items := Peeks(p, n) + [Poke(a, v)];
    if n == 0 {
      assert items == [Poke(a, v)] && items[1..] == [];
    } else {
      assert items[1..] == Peeks(p, n - 1) + [Poke(a, v)];
      PeeksThenPoke(p, a, v, n - 1, depth + 1);
    }
  }

  /** Eleven is the least such bound: nine peeks and a poke fill 32 words and get stuck on ten slots. */
  lemma {:induction false} ElevenSlotsAreNeeded(bus: Bus, trace: Trace, p: Word, a: Word, v: Word)
    ensures var items := Peeks(p, 9) + [Poke(a, v)];
            Blocks(items) && |Words(items)| == 32 &&
            StrictThreaded(bus, Words(items) + [HALT], Vm([], trace), 10) == Stuck
  {
    PeeksThenPoke(p, a, v, 9, 0);
    TooDeepIsStuck(bus, Peeks(p, 9) + [Poke(a, v)], [HALT], Vm([], trace), 10);
  }
}
