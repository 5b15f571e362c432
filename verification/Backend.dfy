/**
 * The emitted Thumb-2 code does what the generator asked for: executing the
 * halfwords is running the requests one by one on two registers and the bus.
 */
module Backend {
  import opened Machine
  import opened Exec
  import opened Target
  import opened Thumb
  import opened Native

  /** The meaning of one request. */
  function OpEffect(bus: Bus, op: Op, c: Cpu): Cpu {
    match op
    case Mov(toAcc, imm) => c.(regs := Set(c.regs, if toAcc then ACC else SCRATCH, imm))
    case Alu(w) => c.(regs := Set(c.regs, ACC, Arith(w, Get(c.regs, ACC), Get(c.regs, SCRATCH))))
    case LoadAcc =>
      var addr := Get(c.regs, SCRATCH);
      Cpu(Set(c.regs, ACC, bus(c.trace, addr)), AfterRead(bus, c.trace, addr))
    case StoreScratch => c.(trace := AfterWrite(c.trace, Get(c.regs, ACC), Get(c.regs, SCRATCH)))
  }

  function RunOps(bus: Bus, ops: seq<Op>, c: Cpu): Cpu
    decreases |ops|
  {
    if ops == [] then c else RunOps(bus, ops[1..], OpEffect(bus, ops[0], c))
  }

  predicate Supported(op: Op) {
    op.Alu? ==> op.op == ADD || op.op == SUB || op.op == MUL
  }

  lemma {:induction false} OpExecutes(bus: Bus, op: Op, rest: seq<bv16>, c: Cpu)
    requires Supported(op)
    ensures Execute(bus, OpCode(op) + rest, c) == Execute(bus, rest, OpEffect(bus, op, c))
  {
    hide MovImmCode, EncodeAdds, EncodeSubs, EncodeMuls, EncodeLdrImm, EncodeStrImm, Execute, Arith;
    match op
    case Mov(toAcc, imm) => MovImmIsExact(bus, if toAcc then ACC else SCRATCH, imm, rest, c);
    case Alu(w) =>
      if w == ADD {
        AddExecutes(bus, rest, c);
      } else if w == SUB {
        SubExecutes(bus, rest, c);
      } else {
        MulExecutes(bus, rest, c);
      }
    case LoadAcc => LoadExecutes(bus, rest, c);
    case StoreScratch => StoreExecutes(bus, rest, c);
  }

  lemma {:induction false} AddExecutes(bus: Bus, rest: seq<bv16>, c: Cpu)
    ensures Execute(bus, [EncodeAdds(ACC, ACC, SCRATCH)] + rest, c) == Execute(bus, rest, OpEffect(bus, Alu(ADD), c))
  {
    AddsDecodes(ACC, ACC, SCRATCH);
    Narrow(bus, EncodeAdds(ACC, ACC, SCRATCH), AddReg(ACC, ACC, SCRATCH), rest, c);
  }

  lemma {:induction false} SubExecutes(bus: Bus, rest: seq<bv16>, c: Cpu)
    ensures Execute(bus, [EncodeSubs(ACC, ACC, SCRATCH)] + rest, c) == Execute(bus, rest, OpEffect(bus, Alu(SUB), c))
  {
    AddsDecodes(ACC, ACC, SCRATCH);
    Narrow(bus, EncodeSubs(ACC, ACC, SCRATCH), SubReg(ACC, ACC, SCRATCH), rest, c);
  }

  lemma {:induction false} MulExecutes(bus: Bus, rest: seq<bv16>, c: Cpu)
    ensures Execute(bus, MulCode(ACC, ACC, SCRATCH) + rest, c) == Execute(bus, rest, OpEffect(bus, Alu(MUL), c))
  {
    MulsDecodes(ACC, SCRATCH);
    assert MulCode(ACC, ACC, SCRATCH) == [EncodeMuls(ACC, SCRATCH)];
    Narrow(bus, EncodeMuls(ACC, SCRATCH), MulReg(ACC, SCRATCH), rest, c);
  }

  lemma {:induction false} LoadExecutes(bus: Bus, rest: seq<bv16>, c: Cpu)
    ensures Execute(bus, [EncodeLdrImm(ACC, SCRATCH, 0).hw] + rest, c) == Execute(bus, rest, OpEffect(bus, LoadAcc, c))
  {
    LdrDecodes(ACC, SCRATCH, 0);
    Narrow(bus, EncodeLdrImm(ACC, SCRATCH, 0).hw, Ldr(ACC, SCRATCH, 0), rest, c);
  }

  lemma {:induction false} StoreExecutes(bus: Bus, rest: seq<bv16>, c: Cpu)
    ensures Execute(bus, [EncodeStrImm(SCRATCH, ACC, 0).hw] + rest, c)
         == Execute(bus, rest, OpEffect(bus, StoreScratch, c))
  {
    StrDecodes(SCRATCH, ACC, 0);
    Narrow(bus, EncodeStrImm(SCRATCH, ACC, 0).hw, Str(SCRATCH, ACC, 0), rest, c);
  }

  lemma {:induction false} ThumbCodePrepend(op: Op, ops: seq<Op>)
    ensures ThumbCode([op] + ops) == OpCode(op) + ThumbCode(ops)
  {
    hide OpCode;
    var all := [op] + ops;
    if ops == [] {
      assert all[..|all| - 1] == [];
    } else {
      assert all[..|all| - 1] == [op] + ops[..|ops| - 1];
      ThumbCodePrepend(op, ops[..|ops| - 1]);
    }
  }

  /**
   * Whatever follows the return in the buffer, the code of any request list
   * without a divide returns, having done exactly what was requested.
   */
  lemma {:induction false} CodeRunsOps(bus: Bus, ops: seq<Op>, junk: seq<bv16>, c: Cpu)
    requires forall op <- ops :: Supported(op)
    ensures Execute(bus, ThumbCode(ops) + [BX_LR] + junk, c) == Returned(RunOps(bus, ops, c))
    decreases |ops|
  {
    if ops == [] {
      BxDecodes();
    } else {
      var rest := ThumbCode(ops[1..]) + [BX_LR] + junk;
      assert ops == [ops[0]] + ops[1..];
      ThumbCodePrepend(ops[0], ops[1..]);
      assert ThumbCode(ops) + [BX_LR] + junk == OpCode(ops[0]) + rest;
      OpExecutes(bus, ops[0], rest, c);
      CodeRunsOps(bus, ops[1..], junk, OpEffect(bus, ops[0], c));
    }
  }

  /** Only the two argument registers are written, so the caller's registers survive the call. */
  lemma {:induction false} OthersPreserved(bus: Bus, ops: seq<Op>, c: Cpu, r: Reg)
    requires r != ACC && r != SCRATCH
    ensures Get(RunOps(bus, ops, c).regs, r) == Get(c.regs, r)
    decreases |ops|
  {
    if ops != [] {
      OthersPreserved(bus, ops[1..], OpEffect(bus, ops[0], c), r);
      SetOther(c, bus, ops[0], r);
    }
  }

  lemma SetOther(c: Cpu, bus: Bus, op: Op, r: Reg)
    requires r != ACC && r != SCRATCH
    ensures Get(OpEffect(bus, op, c).regs, r) == Get(c.regs, r)
  {
    DistinctRegisters(r, ACC);
    DistinctRegisters(r, SCRATCH);
  }

  lemma DistinctRegisters(r: Reg, s: Reg)
    requires r != s
    ensures r as nat != s as nat
  {
  }
}
