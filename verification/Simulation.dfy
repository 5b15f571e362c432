/**
 * The native code against the threaded engine, on programs built from whole
 * statements: a poke, a peek, a literal, or an operation on the last value.
 */
module Simulation {
  import opened Wrappers
  import opened Machine
  import opened Exec
  import opened Target
  import opened Thumb
  import opened Native
  import opened Backend

  datatype Item =
    | Poke(addr: Word, value: Word)
    | Peek(addr: Word)
    | Lit(value: Word)
    | Compute(op: Word, operand: Word)

  function ItemWords(i: Item): seq<Word> {
    match i
    case Poke(addr, value) => [LIT, addr, LIT, value, WRITE]
    case Peek(addr) => [LIT, addr, LOAD]
    case Lit(value) => [LIT, value]
    case Compute(op, operand) => [LIT, operand, op]
  }

  function Words(items: seq<Item>): seq<Word> {
    if items == [] then [] else ItemWords(items[0]) + Words(items[1..])
  }

  /**
   * The programs both engines are compared on.  A bare literal comes first if
   * at all; an operation has a value to work on; division is left out, for the
   * emitted divide is no instruction.
   */
  predicate Fragment(items: seq<Item>, started: bool, loaded: bool) {
    items == [] ||
    match items[0]
    case Poke(_, _) => Fragment(items[1..], true, loaded)
    case Peek(_) => Fragment(items[1..], true, true)
    case Lit(_) => !started && Fragment(items[1..], true, true)
    case Compute(op, _) => loaded && (op == ADD || op == SUB || op == MUL) && Fragment(items[1..], true, true)
  }

  // ---- the threaded side ----

  /** What a program means: values pile up, accesses happen in order. */
  function Meaning(bus: Bus, items: seq<Item>, vm: Vm): Vm
    decreases |items|
  {
    if items == [] then vm else Meaning(bus, items[1..], ItemMeaning(bus, items[0], vm))
  }

  function ItemMeaning(bus: Bus, i: Item, vm: Vm): Vm {
    match i
    case Poke(addr, value) => vm.(trace := AfterWrite(vm.trace, addr, value))
    case Peek(addr) => Vm(vm.stack + [bus(vm.trace, addr)], AfterRead(bus, vm.trace, addr))
    case Lit(value) => vm.(stack := vm.stack + [value])
    case Compute(op, operand) => vm.(stack := Pop(vm.stack) + [Arith(op, Top(vm.stack), operand)])
  }

  predicate Stops(tail: seq<Word>) {
    tail != [] && tail[0] == HALT
  }

  /** The deepest the stack gets when the program starts with `depth` values on it. */
  function MaxDepth(items: seq<Item>, depth: nat): (d: nat)
    ensures d >= depth
  {
    if items == [] then depth
    else
      var rest := MaxDepth(items[1..], if items[0].Peek? || items[0].Lit? then depth + 1 else depth);
      match items[0]
      case Poke(_, _) => if rest > depth + 2 then rest else depth + 2
      case Compute(_, _) => if rest > depth + 1 then rest else depth + 1
      case _ => rest
  }

  /** With room for its deepest point, a program runs to its meaning without a dropped push or an empty pop. */
  lemma {:induction false} StrictMeaning(bus: Bus, items: seq<Item>, tail: seq<Word>, vm: Vm, started: bool, limit: nat)
    requires Stops(tail) && limit <= VM_STACK_SIZE
    requires Fragment(items, started, vm.stack != [])
    requires MaxDepth(items, |vm.stack|) <= limit
    ensures StrictThreaded(bus, Words(items) + tail, vm, limit) == Fine(Meaning(bus, items, vm))
    decreases |items|
  {
    if items == [] {
      assert Words(items) + tail == tail;
    } else {
      hide StrictThreaded, Threaded, ItemWords, ItemMeaning, Fragment, MaxDepth, Words;
      var i := items[0];
      var rest := Words(items[1..]) + tail;
      var next := ItemMeaning(bus, i, vm);
      FirstItemWords(items, tail);
      FirstItemFits(bus, items, vm, started);
      StrictItem(bus, i, rest, vm, limit);
      StrictMeaning(bus, items[1..], tail, next, true, limit);
    }
  }

  lemma {:induction false} FirstItemWords(items: seq<Item>, tail: seq<Word>)
    requires items != []
    ensures Words(items) + tail == ItemWords(items[0]) + (Words(items[1..]) + tail)
  {
    hide ItemWords;
  }

  /** The first item has the room and the operands it needs, and leaves the rest of the program in the same position. */
  lemma FirstItemFits(bus: Bus, items: seq<Item>, vm: Vm, started: bool)
    requires items != [] && Fragment(items, started, vm.stack != [])
    ensures var i, next := items[0], ItemMeaning(bus, items[0], vm);
            (i.Compute? ==> vm.stack != [] && IsArith(i.op)) &&
            |vm.stack| + (if i.Poke? then 2 else 1) <= MaxDepth(items, |vm.stack|) &&
            Fragment(items[1..], true, next.stack != []) &&
            MaxDepth(items[1..], |next.stack|) <= MaxDepth(items, |vm.stack|)
  {
    hide Arith;
  }

  lemma {:induction false} StrictItem(bus: Bus, i: Item, rest: seq<Word>, vm: Vm, limit: nat)
    requires limit <= VM_STACK_SIZE
    requires i.Compute? ==> vm.stack != [] && IsArith(i.op)
    requires |vm.stack| + (if i.Poke? then 2 else 1) <= limit
    ensures StrictThreaded(bus, ItemWords(i) + rest, vm, limit)
         == StrictThreaded(bus, rest, ItemMeaning(bus, i, vm), limit)
  {
    hide StrictThreaded, IsArith, Arith;
    match i
    case Poke(addr, value) => StrictPoke(bus, addr, value, rest, vm, limit);
    case Peek(addr) => StrictPeek(bus, addr, rest, vm, limit);
    case Lit(value) => StrictLit(bus, value, rest, vm, limit);
    case Compute(op, operand) => StrictCompute(bus, op, operand, rest, vm, limit);
  }

  lemma {:induction false} StrictPoke(bus: Bus, addr: Word, value: Word, rest: seq<Word>, vm: Vm, limit: nat)
    requires |vm.stack| + 2 <= limit
    ensures StrictThreaded(bus, [LIT, addr, LIT, value, WRITE] + rest, vm, limit)
         == StrictThreaded(bus, rest, ItemMeaning(bus, Poke(addr, value), vm), limit)
  {
    hide StrictThreaded;
    var s := vm.stack;
    var third := [WRITE] + rest;
    var second := [LIT, value] + third;
    assert [LIT, addr, LIT, value, WRITE] + rest == [LIT, addr] + second;
    StrictLit(bus, addr, second, vm, limit);
    StrictLit(bus, value, third, vm.(stack := s + [addr]), limit);
    StrictStep(bus, WRITE, rest, vm.(stack := s + [addr] + [value]), limit);
    assert Pop(Pop(s + [addr] + [value])) == s;
  }

  lemma {:induction false} StrictPeek(bus: Bus, addr: Word, rest: seq<Word>, vm: Vm, limit: nat)
    requires |vm.stack| + 1 <= limit <= VM_STACK_SIZE
    ensures StrictThreaded(bus, [LIT, addr, LOAD] + rest, vm, limit)
         == StrictThreaded(bus, rest, ItemMeaning(bus, Peek(addr), vm), limit)
  {
    hide StrictThreaded;
    var s := vm.stack;
    assert [LIT, addr, LOAD] + rest == [LIT, addr] + ([LOAD] + rest);
    StrictLit(bus, addr, [LOAD] + rest, vm, limit);
    StrictStep(bus, LOAD, rest, vm.(stack := s + [addr]), limit);
    assert Pop(s + [addr]) == s;
  }

  lemma {:induction false} StrictCompute(bus: Bus, op: Word, operand: Word, rest: seq<Word>, vm: Vm, limit: nat)
    requires vm.stack != [] && IsArith(op)
    requires |vm.stack| + 1 <= limit <= VM_STACK_SIZE
    ensures StrictThreaded(bus, [LIT, operand, op] + rest, vm, limit)
         == StrictThreaded(bus, rest, ItemMeaning(bus, Compute(op, operand), vm), limit)
  {
    hide StrictThreaded, Arith;
    var s := vm.stack;
    assert [LIT, operand, op] + rest == [LIT, operand] + ([op] + rest);
    StrictLit(bus, operand, [op] + rest, vm, limit);
    StrictStep(bus, op, rest, vm.(stack := s + [operand]), limit);
    assert Pop(s + [operand]) == s;
  }

  lemma {:induction false} StrictStep(bus: Bus, op: Word, rest: seq<Word>, vm: Vm, limit: nat)
    requires op == LOAD || op == WRITE || IsArith(op)
    requires |vm.stack| >= if op == LOAD then 1 else 2
    ensures StrictThreaded(bus, [op] + rest, vm, limit) == StrictThreaded(bus, rest, Step(bus, op, vm), limit)
  {
    assert ([op] + rest)[1..] == rest;
  }

  lemma {:induction false} StrictLit(bus: Bus, v: Word, rest: seq<Word>, vm: Vm, limit: nat)
    requires |vm.stack| < limit
    ensures StrictThreaded(bus, [LIT, v] + rest, vm, limit)
         == StrictThreaded(bus, rest, vm.(stack := vm.stack + [v]), limit)
  {
    assert ([LIT, v] + rest)[2..] == rest;
  }

  /** Two words of program per value on the stack: 128 words cannot fill 64 slots. */
  lemma {:induction false} DepthInStream(items: seq<Item>, depth: nat)
    requires 2 * depth + |Words(items)| <= MAX_STREAM_WORDS
    ensures MaxDepth(items, depth) <= VM_STACK_SIZE
  {
    if items != [] {
      DepthInStream(items[1..], match items[0] case Peek(_) => depth + 1 case Lit(_) => depth + 1 case _ => depth);
    }
  }

  lemma {:induction false} ThreadedMeaning(bus: Bus, items: seq<Item>, tail: seq<Word>, trace: Trace)
    requires Stops(tail) && Fragment(items, false, false)
    requires |Words(items)| <= MAX_STREAM_WORDS
    ensures Threaded(bus, Words(items) + tail, Vm([], trace)) == Halted(Meaning(bus, items, Vm([], trace)))
  {
    DepthInStream(items, 0);
    StrictMeaning(bus, items, tail, Vm([], trace), false, VM_STACK_SIZE);
    StrictIsThreaded(bus, Words(items) + tail, Vm([], trace), VM_STACK_SIZE);
  }

  // ---- the native side ----

  /** The accumulator and the traffic; no accumulator before the first item. */
  datatype AccState = AccState(acc: Option<Word>, trace: Trace)

  /**
   * What the generated code really does.  A poke goes to the accumulator, which
   * holds the poke's own address only if nothing was in it before.
   */
  function NativeItem(bus: Bus, i: Item, s: AccState): AccState {
    match i
    case Poke(addr, value) =>
      var target := if s.acc.None? then addr else s.acc.value;
      AccState(Some(target), AfterWrite(s.trace, target, value))
    case Peek(addr) => AccState(Some(bus(s.trace, addr)), AfterRead(bus, s.trace, addr))
    case Lit(value) => if s.acc.None? then s.(acc := Some(value)) else s
    case Compute(op, operand) => if s.acc.None? then s else s.(acc := Some(Arith(op, s.acc.value, operand)))
  }

  function NativeMeaning(bus: Bus, items: seq<Item>, s: AccState): AccState
    decreases |items|
  {
    if items == [] then s else NativeMeaning(bus, items[1..], NativeItem(bus, items[0], s))
  }

  function ItemOps(i: Item, accLoaded: bool): seq<Op> {
    match i
    case Poke(addr, value) => [Mov(!accLoaded, addr), Mov(false, value), StoreScratch]
    case Peek(addr) => [Mov(false, addr), LoadAcc]
    case Lit(value) => [Mov(!accLoaded, value)]
    case Compute(op, operand) => [Mov(!accLoaded, operand), Alu(op)]
  }

  function ItemsOps(items: seq<Item>, accLoaded: bool): seq<Op> {
    if items == [] then [] else ItemOps(items[0], accLoaded) + ItemsOps(items[1..], true)
  }

  /** A program item or the halt never looks like an address context to the literal before it. */
  lemma {:induction false} NextIsPlain(items: seq<Item>, tail: seq<Word>)
    requires Stops(tail)
    ensures var w := Words(items) + tail; w != [] && !AddressContext(w[0]) && !IsArith(w[0])
  {
    if items == [] {
      assert Words(items) + tail == tail;
    }
  }

  lemma {:induction false} SelectItems(items: seq<Item>, tail: seq<Word>, started: bool, loaded: bool)
    requires Stops(tail) && Fragment(items, started, loaded) && (loaded ==> started)
    ensures Select(Words(items) + tail, started) == Some(ItemsOps(items, started))
    decreases |items|
  {
    var words := Words(items) + tail;
    if items == [] {
      assert words == tail;
    } else {
      var rest := Words(items[1..]) + tail;
      assert words == ItemWords(items[0]) + rest;
      NextIsPlain(items[1..], tail);
      SelectItems(items[1..], tail, true, loaded || !items[0].Poke?);
      SelectItem(items[0], rest, started);
    }
  }

  lemma {:induction false} SelectItem(i: Item, rest: seq<Word>, started: bool)
    requires rest != [] && !AddressContext(rest[0]) && !IsArith(rest[0])
    requires i.Compute? ==> started && IsArith(i.op)
    requires Select(rest, true).Some?
    ensures Select(ItemWords(i) + rest, started) == Some(ItemOps(i, started) + Select(rest, true).value)
  {
    hide Select, IsArith;
    match i
    case Poke(addr, value) => SelectPoke(addr, value, rest, started);
    case Peek(addr) => SelectPeek(addr, rest, started);
    case Lit(value) => SelectLit(value, rest[0], rest, started);
    case Compute(op, operand) => SelectCompute(op, operand, rest);
  }

  lemma {:induction false} SelectPoke(addr: Word, value: Word, rest: seq<Word>, started: bool)
    requires Select(rest, true).Some?
    ensures Select([LIT, addr, LIT, value, WRITE] + rest, started)
         == Some([Mov(!started, addr), Mov(false, value), StoreScratch] + Select(rest, true).value)
  {
    hide Select;
    var ops := Select(rest, true).value;
    var third := [WRITE] + rest;
    var second := [LIT, value] + third;
    assert [LIT, addr, LIT, value, WRITE] + rest == [LIT, addr] + second;
    SelectOp(WRITE, StoreScratch, rest, true);
    SelectLit(value, WRITE, third, true);
    SelectLit(addr, LIT, second, started);
    assert [Mov(!started, addr)] + ([Mov(false, value)] + ([StoreScratch] + ops))
        == [Mov(!started, addr), Mov(false, value), StoreScratch] + ops;
  }

  lemma {:induction false} SelectPeek(addr: Word, rest: seq<Word>, started: bool)
    requires Select(rest, true).Some?
    ensures Select([LIT, addr, LOAD] + rest, started) == Some([Mov(false, addr), LoadAcc] + Select(rest, true).value)
  {
    hide Select;
    var ops := Select(rest, true).value;
    assert [LIT, addr, LOAD] + rest == [LIT, addr] + ([LOAD] + rest);
    SelectOp(LOAD, LoadAcc, rest, started);
    SelectLit(addr, LOAD, [LOAD] + rest, started);
    assert [Mov(false, addr)] + ([LoadAcc] + ops) == [Mov(false, addr), LoadAcc] + ops;
  }

  lemma {:induction false} SelectCompute(op: Word, operand: Word, rest: seq<Word>)
    requires IsArith(op) && Select(rest, true).Some?
    ensures Select([LIT, operand, op] + rest, true) == Some([Mov(false, operand), Alu(op)] + Select(rest, true).value)
  {
    hide Select;
    var ops := Select(rest, true).value;
    assert [LIT, operand, op] + rest == [LIT, operand] + ([op] + rest);
    SelectOp(op, Alu(op), rest, true);
    SelectLit(operand, op, [op] + rest, true);
    assert [Mov(false, operand)] + ([Alu(op)] + ops) == [Mov(false, operand), Alu(op)] + ops;
  }

  lemma {:induction false} SelectOp(w: Word, op: Op, rest: seq<Word>, accLoaded: bool)
    requires op == (if w == LOAD then LoadAcc else if w == WRITE then StoreScratch else Alu(w))
    requires w == LOAD || w == WRITE || IsArith(w)
    ensures Select([w] + rest, accLoaded) == Prepend(op, Select(rest, accLoaded || w != WRITE))
  {
    assert ([w] + rest)[1..] == rest;
  }

  lemma {:induction false} SelectLit(v: Word, next: Word, rest: seq<Word>, accLoaded: bool)
    requires rest != [] && rest[0] == next
    ensures var toAcc := !AddressContext(next) && !accLoaded;
            Select([LIT, v] + rest, accLoaded) == Prepend(Mov(toAcc, v), Select(rest, accLoaded || toAcc))
  {
    assert ([LIT, v] + rest)[2..] == rest;
  }

  lemma {:induction false} RunOpsAppend(bus: Bus, a: seq<Op>, b: seq<Op>, c: Cpu)
    ensures RunOps(bus, a + b, c) == RunOps(bus, b, RunOps(bus, a, c))
    decreases |a|
  {
    if a == [] {
      assert a + b == b;
    } else {
      assert (a + b)[1..] == a[1..] + b;
      RunOpsAppend(bus, a[1..], b, OpEffect(bus, a[0], c));
    }
  }

  ghost predicate Represents(c: Cpu, s: AccState) {
    c.trace == s.trace && (s.acc.Some? ==> Get(c.regs, ACC) == s.acc.value)
  }

  lemma {:induction false} ItemOpsRun(bus: Bus, i: Item, c: Cpu, s: AccState)
    requires Represents(c, s)
    requires i.Compute? ==> s.acc.Some?
    requires i.Lit? ==> s.acc.None?
    ensures Represents(RunOps(bus, ItemOps(i, s.acc.Some?), c), NativeItem(bus, i, s))
  {
    var ops := ItemOps(i, s.acc.Some?);
    var c1 := OpEffect(bus, ops[0], c);
    assert RunOps(bus, ops, c) == RunOps(bus, ops[1..], c1);
    if |ops| > 1 {
      var c2 := OpEffect(bus, ops[1], c1);
      assert RunOps(bus, ops[1..], c1) == RunOps(bus, ops[2..], c2);
      if |ops| > 2 {
        assert RunOps(bus, ops[2..], c2) == RunOps(bus, [], OpEffect(bus, ops[2], c2));
      }
    }
  }

  lemma {:induction false} ItemsOpsRun(bus: Bus, items: seq<Item>, c: Cpu, s: AccState, loaded: bool)
    requires Represents(c, s)
    requires Fragment(items, s.acc.Some?, loaded) && (loaded ==> s.acc.Some?)
    ensures Represents(RunOps(bus, ItemsOps(items, s.acc.Some?), c), NativeMeaning(bus, items, s))
    ensures forall op <- ItemsOps(items, s.acc.Some?) :: Supported(op)
    decreases |items|
  {
    if items != [] {
      var first := ItemOps(items[0], s.acc.Some?);
      var s1 := NativeItem(bus, items[0], s);
      ItemOpsRun(bus, items[0], c, s);
      RunOpsAppend(bus, first, ItemsOps(items[1..], true), c);
      ItemsOpsRun(bus, items[1..], RunOps(bus, first, c), s1, loaded || !items[0].Poke?);
    }
  }

  /**
   * The halfwords left in the buffer, executed with any register contents and
   * any junk behind them, do what `NativeMeaning` says and return.
   */
  lemma {:induction false} EmittedCodeMeaning(bus: Bus, items: seq<Item>, tail: seq<Word>, junk: seq<bv16>, c: Cpu)
    requires Stops(tail) && Fragment(items, false, false)
    ensures Select(Words(items) + tail, false).Some?
    ensures var code := ThumbCode(Select(Words(items) + tail, false).value) + [BX_LR] + junk;
            Execute(bus, code, c).Returned? &&
            var c' := Execute(bus, code, c).cpu;
            Represents(c', NativeMeaning(bus, items, AccState(None, c.trace))) &&
            forall r: Reg :: r != ACC && r != SCRATCH ==> Get(c'.regs, r) == Get(c.regs, r)
  {
    SelectItems(items, tail, false, false);
    ItemsOpsRun(bus, items, c, AccState(None, c.trace), false);
    CodeRunsOps(bus, ItemsOps(items, false), junk, c);
    forall r: Reg | r != ACC && r != SCRATCH
      ensures Get(RunOps(bus, ItemsOps(items, false), c).regs, r) == Get(c.regs, r)
    {
      OthersPreserved(bus, ItemsOps(items, false), c, r);
    }
  }

  // ---- exactly when the engines agree ----

  /** Every poke finds its own address in the accumulator, or finds the accumulator unused. */
  predicate PokesHit(bus: Bus, items: seq<Item>, s: AccState)
    decreases |items|
  {
    items == [] ||
    ((items[0].Poke? && s.acc.Some? ==> s.acc.value == items[0].addr) &&
     PokesHit(bus, items[1..], NativeItem(bus, items[0], s)))
  }

  /** The accumulator is the top of the VM stack as soon as there is one. */
  ghost predicate Matches(vm: Vm, s: AccState) {
    vm.trace == s.trace && (vm.stack != [] ==> s.acc == Some(Top(vm.stack)))
  }

  lemma {:induction false} HitsAgree(bus: Bus, items: seq<Item>, vm: Vm, s: AccState)
    requires Matches(vm, s) && Fragment(items, s.acc.Some?, vm.stack != [])
    requires PokesHit(bus, items, s)
    ensures Matches(Meaning(bus, items, vm), NativeMeaning(bus, items, s))
    decreases |items|
  {
    if items != [] {
      HitsAgree(bus, items[1..], ItemMeaning(bus, items[0], vm), NativeItem(bus, items[0], s));
    }
  }

  lemma {:induction false} TracesGrow(bus: Bus, items: seq<Item>, vm: Vm, s: AccState)
    ensures vm.trace <= Meaning(bus, items, vm).trace
    ensures s.trace <= NativeMeaning(bus, items, s).trace
    decreases |items|
  {
    if items != [] {
      TracesGrow(bus, items[1..], ItemMeaning(bus, items[0], vm), NativeItem(bus, items[0], s));
    }
  }

  /** The first miss writes to a wrong address, and no later event can hide it. */
  lemma {:induction false} MissDiffers(bus: Bus, items: seq<Item>, vm: Vm, s: AccState)
    requires Matches(vm, s) && Fragment(items, s.acc.Some?, vm.stack != [])
    requires !PokesHit(bus, items, s)
    ensures Meaning(bus, items, vm).trace != NativeMeaning(bus, items, s).trace
    decreases |items|
  {
    var vm1, s1 := ItemMeaning(bus, items[0], vm), NativeItem(bus, items[0], s);
    if items[0].Poke? && s.acc.Some? && s.acc.value != items[0].addr {
      TracesGrow(bus, items[1..], vm1, s1);
      assert vm1.trace[|vm.trace|] != s1.trace[|s.trace|];
    } else {
      MissDiffers(bus, items[1..], vm1, s1);
    }
  }

  /**
   * The two engines produce the same traffic exactly when every poke that is
   * not the first statement finds its address in the accumulator; and then the
   * accumulator ends as the top of the VM stack.
   */
  lemma {:induction false} EnginesAgreeIff(bus: Bus, items: seq<Item>, trace: Trace)
    requires Fragment(items, false, false)
    ensures var vm, s := Meaning(bus, items, Vm([], trace)), NativeMeaning(bus, items, AccState(None, trace));
            (vm.trace == s.trace <==> PokesHit(bus, items, AccState(None, trace))) &&
            (vm.trace == s.trace && vm.stack != [] ==> s.acc == Some(Top(vm.stack)))
  {
    var vm, s := Vm([], trace), AccState(None, trace);
    if PokesHit(bus, items, s) {
      HitsAgree(bus, items, vm, s);
    } else {
      MissDiffers(bus, items, vm, s);
    }
  }
}
