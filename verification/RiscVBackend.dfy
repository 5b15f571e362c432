/**
 * The same generator on RISC-V: its code does what the Thumb-2 code does, with
 * every immediate replaced by what the LUI/ADDI pair really loads.
 */
module RiscVBackend {
  import opened Wrappers
  import opened Machine
  import opened Exec
  import opened Target
  import opened Native
  import opened Simulation
  import RiscV

  // ---- requests ----

  function Reload(op: Op): Op {
    if op.Mov? then Mov(op.toAcc, RiscV.Loaded(op.imm)) else op
  }

  function ReloadAll(ops: seq<Op>): seq<Op> {
    if ops == [] then [] else [Reload(ops[0])] + ReloadAll(ops[1..])
  }

  /** The RISC-V registers a0 and a1 hold what r0 and r1 hold on the other processor. */
  ghost predicate Mirrors(c: Cpu, d: Cpu) {
    c.trace == d.trace && Get(c.regs, RiscV.A0) == Get(d.regs, ACC) && Get(c.regs, RiscV.A1) == Get(d.regs, SCRATCH)
  }

  lemma OpExecutes(bus: Bus, op: Op, rest: seq<Word>, c: Cpu, d: Cpu) returns (after: Cpu)
    requires Backend.Supported(op) && Mirrors(c, d)
    ensures RiscV.Execute(bus, RiscV.OpCode(op) + rest, c) == RiscV.Execute(bus, rest, after)
    ensures Mirrors(after, Backend.OpEffect(bus, Reload(op), d))
  {
    hide RiscV.MovImmCode, RiscV.Execute, RiscV.Loaded;
    match op
    case Mov(toAcc, imm) =>
      var reg := if toAcc then RiscV.A0 else RiscV.A1;
      RiscV.MovImmRuns(bus, reg, imm, rest, c);
      after := c.(regs := Set(c.regs, reg, RiscV.Loaded(imm)));
    case Alu(w) =>
      after := AluExecutes(bus, w, rest, c, d);
    case LoadAcc =>
      after := LoadExecutes(bus, rest, c, d);
    case StoreScratch =>
      after := StoreExecutes(bus, rest, c, d);
  }

  lemma AluExecutes(bus: Bus, w: Word, rest: seq<Word>, c: Cpu, d: Cpu) returns (after: Cpu)
    requires (w == ADD || w == SUB || w == MUL) && Mirrors(c, d)
    ensures RiscV.Execute(bus, RiscV.OpCode(Alu(w)) + rest, c) == RiscV.Execute(bus, rest, after)
    ensures Mirrors(after, Backend.OpEffect(bus, Alu(w), d))
  {
    hide RiscV.Execute, RiscV.Decode, RiscV.EncodeRtype;
    var funct7 := if w == ADD then 0 else if w == SUB then 0x20 else 1;
    var i := RiscV.Rtype(RiscV.A0, RiscV.A0, RiscV.A1, funct7, 0);
    AluDecodes();
    RiscV.StepOver(bus, RiscV.OpCode(Alu(w))[0], i, rest, c);
    after := RiscV.Effect(bus, i, c);
  }

  lemma AluDecodes()
    ensures RiscV.Decode(RiscV.EncodeRtype(RiscV.A0, RiscV.A0, RiscV.A1, 0, 0))
         == RiscV.Rtype(RiscV.A0, RiscV.A0, RiscV.A1, 0, 0)
    ensures RiscV.Decode(RiscV.EncodeRtype(RiscV.A0, RiscV.A0, RiscV.A1, 0x20, 0))
         == RiscV.Rtype(RiscV.A0, RiscV.A0, RiscV.A1, 0x20, 0)
    ensures RiscV.Decode(RiscV.EncodeRtype(RiscV.A0, RiscV.A0, RiscV.A1, 1, 0))
         == RiscV.Rtype(RiscV.A0, RiscV.A0, RiscV.A1, 1, 0)
  {
  }

  lemma LoadExecutes(bus: Bus, rest: seq<Word>, c: Cpu, d: Cpu) returns (after: Cpu)
    requires Mirrors(c, d)
    ensures RiscV.Execute(bus, [RiscV.EncodeLw(RiscV.A0, RiscV.A1)] + rest, c) == RiscV.Execute(bus, rest, after)
    ensures Mirrors(after, Backend.OpEffect(bus, LoadAcc, d))
  {
    hide RiscV.Execute;
    var i := RiscV.Lw(RiscV.A0, RiscV.A1, 0);
    assert RiscV.Decode(RiscV.EncodeLw(RiscV.A0, RiscV.A1)) == i;
    RiscV.StepOver(bus, RiscV.EncodeLw(RiscV.A0, RiscV.A1), i, rest, c);
    RiscV.ZeroRight(Get(c.regs, RiscV.A1));
    after := RiscV.Effect(bus, i, c);
  }

  lemma StoreExecutes(bus: Bus, rest: seq<Word>, c: Cpu, d: Cpu) returns (after: Cpu)
    requires Mirrors(c, d)
    ensures RiscV.Execute(bus, [RiscV.EncodeSw(RiscV.A1, RiscV.A0)] + rest, c) == RiscV.Execute(bus, rest, after)
    ensures Mirrors(after, Backend.OpEffect(bus, StoreScratch, d))
  {
    hide RiscV.Execute;
    var i := RiscV.Sw(RiscV.A1, RiscV.A0, 0);
    assert RiscV.Decode(RiscV.EncodeSw(RiscV.A1, RiscV.A0)) == i;
    RiscV.StepOver(bus, RiscV.EncodeSw(RiscV.A1, RiscV.A0), i, rest, c);
    RiscV.ZeroRight(Get(c.regs, RiscV.A0));
    after := RiscV.Effect(bus, i, c);
  }

  lemma {:induction false} ProgramCodePrepend(op: Op, ops: seq<Op>)
    ensures RiscV.ProgramCode([op] + ops) == RiscV.OpCode(op) + RiscV.ProgramCode(ops)
  {
    hide RiscV.OpCode;
    var all := [op] + ops;
    if ops == [] {
      assert all[..|all| - 1] == [];
    } else {
      assert all[..|all| - 1] == [op] + ops[..|ops| - 1];
      ProgramCodePrepend(op, ops[..|ops| - 1]);
    }
  }

  /** The emitted words return, having done what was requested with the immediates they really load. */
  lemma {:induction false} CodeRunsOps(bus: Bus, ops: seq<Op>, junk: seq<Word>, c: Cpu, d: Cpu)
    requires Mirrors(c, d)
    requires forall op <- ops :: Backend.Supported(op)
    ensures var r := RiscV.Execute(bus, RiscV.ProgramCode(ops) + [RiscV.RV32_RET] + junk, c);
            r.Returned? && Mirrors(r.cpu, Backend.RunOps(bus, ReloadAll(ops), d))
    decreases |ops|
  {
    if ops == [] {
      assert RiscV.Decode(RiscV.RV32_RET) == RiscV.Jalr(0, 1, 0);
    } else {
      hide RiscV.Execute, RiscV.OpCode, Mirrors, Backend.OpEffect, Backend.Supported;
      var rest := RiscV.ProgramCode(ops[1..]) + [RiscV.RV32_RET] + junk;
      assert ops == [ops[0]] + ops[1..];
      ProgramCodePrepend(ops[0], ops[1..]);
      assert RiscV.ProgramCode(ops) + [RiscV.RV32_RET] + junk == RiscV.OpCode(ops[0]) + rest;
      var after := OpExecutes(bus, ops[0], rest, c, d);
      CodeRunsOps(bus, ops[1..], junk, after, Backend.OpEffect(bus, Reload(ops[0]), d));
      assert ReloadAll(ops)[1..] == ReloadAll(ops[1..]);
    }
  }

  // ---- program items ----

  function ReloadItem(i: Item): Item {
    match i
    case Poke(addr, value) => Poke(RiscV.Loaded(addr), RiscV.Loaded(value))
    case Peek(addr) => Peek(RiscV.Loaded(addr))
    case Lit(value) => Lit(RiscV.Loaded(value))
    case Compute(op, operand) => Compute(op, RiscV.Loaded(operand))
  }

  function ReloadItems(items: seq<Item>): seq<Item> {
    if items == [] then [] else [ReloadItem(items[0])] + ReloadItems(items[1..])
  }

  lemma {:induction false} ReloadAppend(a: seq<Op>, b: seq<Op>)
    ensures ReloadAll(a + b) == ReloadAll(a) + ReloadAll(b)
    decreases |a|
  {
    if a == [] {
      assert a + b == b;
    } else {
      assert (a + b)[1..] == a[1..] + b;
      ReloadAppend(a[1..], b);
    }
  }

  lemma ReloadOne(i: Item, accLoaded: bool)
    ensures ReloadAll(ItemOps(i, accLoaded)) == ItemOps(ReloadItem(i), accLoaded)
  {
    hide RiscV.Loaded;
    var ops := ItemOps(i, accLoaded);
    assert ReloadAll(ops) == [Reload(ops[0])] + ReloadAll(ops[1..]);
    if |ops| > 1 {
      assert ReloadAll(ops[1..]) == [Reload(ops[1])] + ReloadAll(ops[2..]);
      if |ops| > 2 {
        assert ReloadAll(ops[2..]) == [Reload(ops[2])] + ReloadAll(ops[3..]);
      }
    }
  }

  lemma {:induction false} ReloadedOps(items: seq<Item>, accLoaded: bool)
    ensures ReloadAll(ItemsOps(items, accLoaded)) == ItemsOps(ReloadItems(items), accLoaded)
  {
    if items != [] {
      hide ReloadItem, ItemOps;
      ReloadOne(items[0], accLoaded);
      ReloadedOps(items[1..], true);
      ReloadAppend(ItemOps(items[0], accLoaded), ItemsOps(items[1..], true));
      assert ReloadItems(items)[1..] == ReloadItems(items[1..]);
    }
  }

  lemma {:induction false} ReloadedFragment(items: seq<Item>, started: bool, loaded: bool)
    requires Fragment(items, started, loaded)
    ensures Fragment(ReloadItems(items), started, loaded)
  {
    if items != [] {
      hide RiscV.Loaded;
      assert ReloadItems(items)[1..] == ReloadItems(items[1..]);
      ReloadedFragment(items[1..], true, loaded || !items[0].Poke?);
    }
  }

  /**
   * What a program of the fragment does on RISC-V: the accumulator machine run
   * on the immediates as they are really loaded.
   */
  lemma {:induction false} EmittedCodeMeaning(bus: Bus, items: seq<Item>, tail: seq<Word>, junk: seq<Word>, c: Cpu)
    requires Stops(tail) && Fragment(items, false, false)
    ensures Select(Words(items) + tail, false).Some?
    ensures var ops := Select(Words(items) + tail, false).value;
            var r := RiscV.Execute(bus, RiscV.ProgramCode(ops) + [RiscV.RV32_RET] + junk, c);
            var s := NativeMeaning(bus, ReloadItems(items), AccState(None, c.trace));
            r.Returned? && r.cpu.trace == s.trace &&
            (s.acc.Some? ==> Get(r.cpu.regs, RiscV.A0) == s.acc.value)
  {
    hide RiscV.Execute, RiscV.Loaded;
    var ops := ItemsOps(items, false);
    var d := Cpu(Set(Set(map[], ACC, Get(c.regs, RiscV.A0)), SCRATCH, Get(c.regs, RiscV.A1)), c.trace);
    var none := AccState(None, c.trace);
    SelectItems(items, tail, false, false);
    ItemsOpsRun(bus, items, d, none, false);
    CodeRunsOps(bus, ops, junk, c, d);
    ReloadedFragment(items, false, false);
    ItemsOpsRun(bus, ReloadItems(items), d, none, false);
    ReloadedOps(items, false);
  }

  /** A bare expression prints its value exactly when the value fits a signed 12-bit field. */
  lemma {:induction false} ValuePrintsRightIff(bus: Bus, v: Word, junk: seq<Word>, c: Cpu)
    ensures Select([LIT, v, HALT], false).Some?
    ensures var ops := Select([LIT, v, HALT], false).value;
            var r := RiscV.Execute(bus, RiscV.ProgramCode(ops) + [RiscV.RV32_RET] + junk, c);
            r.Returned? && r.cpu.trace == c.trace &&
            (Get(r.cpu.regs, RiscV.A0) == v <==> RiscV.FitsSigned12(v))
  {
    hide RiscV.Execute, RiscV.Loaded, RiscV.FitsSigned12, Select;
    var items := [Lit(v)];
    assert items[1..] == [];
    assert Words(items) + [HALT] == [LIT, v, HALT];
    EmittedCodeMeaning(bus, items, [HALT], junk, c);
    RiscV.LoadedIff(v);
    var again := ReloadItems(items);
    assert again == [Lit(RiscV.Loaded(v))] && again[1..] == [];
    var none := AccState(None, c.trace);
    assert NativeMeaning(bus, again, none) == NativeMeaning(bus, [], NativeItem(bus, again[0], none));
  }
}
